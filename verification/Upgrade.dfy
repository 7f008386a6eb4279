/** Routing of a peeked connection: is it a WebSocket upgrade, and to where? */
module Upgrade {
  import opened Bytes
  import opened Utf8
  import opened HttpRequest

  const NEEDLE := Ascii("upgrade: websocket")
  const ROOT := Ascii("/")
  const WS_PREFIX := Ascii("/ws/")

  datatype Route = Libp2p | Gateway(topic: Octets) | UnknownPath | NotUpgrade

  /** The upgrade header occurs somewhere, in any letter case. */
  predicate LooksLikeUpgrade(bs: Octets) {
    Find(Lower(bs), NEEDLE).Some?
  }

  /** The middle one of the three space-separated parts of a complete first line. */
  function ParseRequestTarget(peek: Octets): Option<Octets> {
    match Find(peek, CRLF)
    case None => None
    case Some(end) => TargetOfLine(peek[..end])
  }

  function TargetOfLine(line: Octets): Option<Octets> {
    if !Valid(line) then None
    else
      match Find(line, [SPACE])
      case None => None
      case Some(i) =>
        match Find(line[i + 1..], [SPACE])
        case None => None
        case Some(j) => Some(line[i + 1..][..j])
  }

  function Classify(peek: Octets, allowed: seq<Octets>): Route {
    if !LooksLikeUpgrade(peek) then NotUpgrade
    else
      match ParseRequestTarget(peek)
      case None => NotUpgrade
      case Some(target) => RouteOf(target, allowed)
  }

  function RouteOf(target: Octets, allowed: seq<Octets>): (r: Route)
    ensures r != NotUpgrade
    ensures forall t :: r == Gateway(t) <==> t in allowed && target == Ascii("/ws/") + t
    ensures r == Libp2p <==> target == Ascii("/")
  {
    if target == ROOT then Libp2p
    else if WS_PREFIX <= target && target[|WS_PREFIX|..] in allowed then
      assert target == WS_PREFIX + target[|WS_PREFIX|..];
      Gateway(target[|WS_PREFIX|..])
    else
      assert forall t :: (WS_PREFIX + t)[|WS_PREFIX|..] == t;
      UnknownPath
  }

  /** The header stands here, in whatever letters. */
  predicate HeaderAt(bs: Octets, i: nat) {
    i + 18 <= |bs| && Lower(bs[i..i + 18]) == Ascii("upgrade: websocket")
  }

  lemma HeaderIsMatch(bs: Octets, i: nat)
    ensures HeaderAt(bs, i) <==> MatchAt(Lower(bs), NEEDLE, i)
  {
    if i + 18 <= |bs| {
      assert Lower(bs)[i..i + 18] == Lower(bs[i..i + 18]);
    }
  }

  /** The header is found wherever it stands, and nothing else is taken for it. */
  lemma AnyCaseUpgrades(bs: Octets)
    ensures LooksLikeUpgrade(bs) <==> exists i :: HeaderAt(bs, i)
  {
    if i: nat :| HeaderAt(bs, i) {
      HeaderIsMatch(bs, i);
    }
    if LooksLikeUpgrade(bs) {
      HeaderIsMatch(bs, Find(Lower(bs), NEEDLE).value);
    }
  }

  /** Letters fold from upper to lower case, and nothing else changes. */
  lemma LowerIs(bs: Octets, i: nat)
    requires i < |bs|
    ensures Lower(bs)[i] == if 'A' as int <= bs[i] as int <= 'Z' as int then bs[i] + 32 else bs[i]
  {
  }

  lemma UpgradeExtends(peek: Octets, ext: Octets)
    requires LooksLikeUpgrade(peek)
    ensures LooksLikeUpgrade(peek + ext)
  {
    assert Lower(peek + ext) == Lower(peek) + Lower(ext);
    FindExtend(Lower(peek), Lower(ext), NEEDLE);
  }

  lemma TargetExtends(peek: Octets, ext: Octets)
    requires Find(peek, CRLF).Some?
    ensures ParseRequestTarget(peek + ext) == ParseRequestTarget(peek)
  {
    FindExtend(peek, ext, CRLF);
    var end := Find(peek, CRLF).value;
    assert (peek + ext)[..end] == peek[..end];
  }

  /** More bytes never change a verdict other than NotUpgrade. */
  lemma ClassifyIsStable(peek: Octets, ext: Octets, allowed: seq<Octets>)
    requires Classify(peek, allowed) != NotUpgrade
    ensures Classify(peek + ext, allowed) == Classify(peek, allowed)
  {
    UpgradeExtends(peek, ext);
    TargetExtends(peek, ext);
  }

  lemma AppendNeedle(peek: Octets)
    ensures LooksLikeUpgrade(peek + NEEDLE)
  {
    var low := Lower(peek + NEEDLE);
    assert low == Lower(peek) + Lower(NEEDLE);
    assert Lower(NEEDLE) == NEEDLE;
    assert low[|peek|..|peek| + |NEEDLE|] == NEEDLE;
    assert MatchAt(low, NEEDLE, |peek|);
  }

  /** NotUpgrade on a complete first line is final exactly when that line has no target. */
  lemma NotUpgradeFinalIff(peek: Octets, allowed: seq<Octets>)
    requires Find(peek, CRLF).Some?
    ensures (forall ext :: Classify(peek + ext, allowed) == NotUpgrade) <==> ParseRequestTarget(peek).None?
  {
    if ParseRequestTarget(peek).None? {
      forall ext ensures Classify(peek + ext, allowed) == NotUpgrade {
        TargetExtends(peek, ext);
      }
    } else {
      TargetExtends(peek, NEEDLE);
      AppendNeedle(peek);
    }
  }

  lemma TargetOfPrinted(verb: Octets, target: Octets, version: Octets)
    requires SPACE !in verb && SPACE !in target && Valid(RequestLine(verb, target, version))
    ensures TargetOfLine(RequestLine(verb, target, version)) == Some(target)
  {
    RequestLineParts(verb, target, version);
  }

  /** A well-formed upgrade request goes where its target says, and nowhere else. */
  lemma ClassifyPrinted(verb: Octets, target: Octets, version: Octets, rest: Octets, allowed: seq<Octets>)
    requires SPACE !in verb && SPACE !in target
    requires var line := RequestLine(verb, target, version); Valid(line) && Find(line, CRLF).None?
    requires LooksLikeUpgrade(RequestLine(verb, target, version) + CRLF + rest)
    ensures Classify(RequestLine(verb, target, version) + CRLF + rest, allowed) == RouteOf(target, allowed)
  {
    var line := RequestLine(verb, target, version);
    FindLineEnd(line, rest);
    assert (line + CRLF + rest)[..|line|] == line;
    TargetOfPrinted(verb, target, version);
  }

  lemma NoneBefore(s: Octets, b: byte, i: nat)
    requires Find(s, [b]) == Some(i)
    ensures b !in s[..i] && s[i] == b && s == s[..i] + [b] + s[i + 1..]
  {
    assert s[i] == s[i..i + 1][0];
    forall k | 0 <= k < i ensures s[k] != b {
      assert !MatchAt(s, [b], k);
      assert s[k..k + 1] == [s[k]];
    }
  }

  lemma LineOfTarget(line: Octets, target: Octets) returns (verb: Octets, version: Octets)
    requires TargetOfLine(line) == Some(target)
    ensures line == RequestLine(verb, target, version) && SPACE !in verb && SPACE !in target
  {
    var i := Find(line, [SPACE]).value;
    var after := line[i + 1..];
    var j := Find(after, [SPACE]).value;
    NoneBefore(line, SPACE, i);
    NoneBefore(after, SPACE, j);
    verb, version := line[..i], after[j + 1..];
  }

  /** The peek is this request line, in UTF-8, and what follows its line end. */
  predicate AsksFor(peek: Octets, verb: Octets, target: Octets, version: Octets, rest: Octets) {
    var line := verb + [32] + (target + [32] + version);
    && peek == line + CRLF + rest && Find(line, CRLF).None? && Valid(line)
    && SPACE !in verb && SPACE !in target
  }

  /** A target is found exactly when a complete first line in UTF-8 has it between its first two spaces. */
  lemma TargetIff(peek: Octets, target: Octets)
    ensures ParseRequestTarget(peek) == Some(target)
      <==> exists verb, version, rest :: AsksFor(peek, verb, target, version, rest)
  {
    if ParseRequestTarget(peek) == Some(target) {
      var end := Find(peek, CRLF).value;
      var verb, version := LineOfTarget(peek[..end], target);
      LineEndsAt(peek, end);
      assert AsksFor(peek, verb, target, version, peek[end + 2..]);
    }
    if verb, version, rest :| AsksFor(peek, verb, target, version, rest) {
      var line := RequestLine(verb, target, version);
      FindLineEnd(line, rest);
      assert peek[..|line|] == line;
      TargetOfPrinted(verb, target, version);
    }
  }

  lemma LineEndsAt(peek: Octets, end: nat)
    requires Find(peek, CRLF) == Some(end)
    ensures end + 2 <= |peek| && peek == peek[..end] + CRLF + peek[end + 2..] && Find(peek[..end], CRLF).None?
  {
    assert peek[end..end + 2] == CRLF;
    forall j: nat ensures !MatchAt(peek[..end], CRLF, j) {
      if j + 2 <= end {
        assert peek[..end][j..j + 2] == peek[j..j + 2];
        assert !MatchAt(peek, CRLF, j);
      }
    }
    FindNone(peek[..end], CRLF);
  }

  /** A request is routed to a gateway topic only if it reads "<verb> /ws/<topic> <version>" on
      its first line and the topic is on the allow-list. */
  lemma GatewayMeansAllowedTopic(peek: Octets, allowed: seq<Octets>, topic: Octets)
      returns (verb: Octets, version: Octets, rest: Octets)
    requires Classify(peek, allowed) == Gateway(topic)
    ensures topic in allowed && SPACE !in verb
    ensures peek == RequestLine(verb, WS_PREFIX + topic, version) + CRLF + rest
  {
    var end := Find(peek, CRLF).value;
    verb, version := LineOfTarget(peek[..end], WS_PREFIX + topic);
    rest := peek[end + 2..];
    assert peek == peek[..end] + peek[end..end + 2] + rest;
  }
}
