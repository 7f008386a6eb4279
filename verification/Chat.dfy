/** Chat: the character-safe trim and the bounded history. */
module Chat {
  import opened Bytes
  import opened Utf8

  const HISTORY_CAP: nat := 40
  const MAX_BODY_BYTES: nat := 512

  const CHAT_TOPIC := "laye-chat/v1"
  const LEGACY_CHAT_TOPIC := "rave-chat/v1"

  /** The longest well-formed prefix of at most `n` bytes. */
  function LongestValid(body: Text, n: nat): (r: Text)
    ensures r <= body && |r| <= n
    ensures forall k: nat | k <= |body| && k <= n && Valid(body[..k]) :: k <= |r|
  {
    if n == 0 then []
    else if n <= |body| && Valid(body[..n]) then body[..n]
    else LongestValid(body, n - 1)
  }

  /** The result is the longest well-formed prefix of `body` within `maxBytes`, and it ends
      less than four bytes below the limit when anything was cut. */
  method TrimToCharBoundary(body: Text, maxBytes: nat) returns (r: Text)
    ensures r == LongestValid(body, maxBytes)
    ensures r <= body && |r| <= maxBytes
    ensures forall n: nat | n <= |body| && n <= maxBytes && Valid(body[..n]) :: n <= |r|
    ensures |body| <= maxBytes ==> r == body
    ensures |body| > maxBytes ==> maxBytes <= |r| + 3
  {
    if |body| <= maxBytes {
      assert body[..|body|] == body;
      OneLongest(body, maxBytes, body);
      return body;
    }
    var end := maxBytes;
    ghost var near := BoundaryNearby(body, maxBytes);
    while !IsBoundary(body, end)
      invariant near <= end <= maxBytes
      invariant forall n: nat | end < n <= maxBytes :: !IsBoundary(body, n)
      decreases end
    {
      end := end - 1;
    }
    forall n: nat | n <= |body| && n <= maxBytes && Valid(body[..n]) ensures n <= end {
      BoundaryIsValidPrefix(body, n);
    }
    BoundaryIsValidPrefix(body, end);
    r := body[..end];
    OneLongest(body, maxBytes, r);
  }

  lemma OneLongest(body: Text, n: nat, r: Text)
    requires r <= body && |r| <= n
    requires forall k: nat | k <= |body| && k <= n && Valid(body[..k]) :: k <= |r|
    ensures r == LongestValid(body, n)
  {
    var l := LongestValid(body, n);
    assert body[..|l|] == l && body[..|r|] == r;
  }

  datatype ChatEntry = ChatEntry(who: Octets, body: Octets)

  class ChatState {
    var history: seq<ChatEntry>
    const cap: nat

    constructor (cap: nat)
      ensures history == [] && this.cap == cap
    {
      history := [];
      this.cap := cap;
    }

    /** The history keeps the newest `cap` entries. */
    method Push(entry: ChatEntry)
      modifies this
      ensures history == LastN(old(history) + [entry], cap)
    {
      history := history + [entry];
      while |history| > cap
        invariant history == LastN(old(history) + [entry], if |history| > cap then |history| else cap)
        decreases |history|
      {
        history := history[1..];
      }
    }
  }

  /** Pushing one by one keeps exactly the newest `cap` of everything ever pushed. */
  function PushAll(history: seq<ChatEntry>, entries: seq<ChatEntry>, cap: nat): seq<ChatEntry>
    decreases |entries|
  {
    if entries == [] then history else PushAll(LastN(history + [entries[0]], cap), entries[1..], cap)
  }

  lemma {:induction false} HistoryIsNewest(history: seq<ChatEntry>, entries: seq<ChatEntry>, cap: nat)
    requires entries != [] || |history| <= cap
    ensures PushAll(history, entries, cap) == LastN(history + entries, cap)
    decreases |entries|
  {
    if entries == [] {
      assert history + entries == history;
    } else {
      var longer, rest := history + [entries[0]], entries[1..];
      assert history + entries == longer + rest;
      LastNTwice(longer, rest, cap);
      HistoryIsNewest(LastN(longer, cap), rest, cap);
    }
  }
}
