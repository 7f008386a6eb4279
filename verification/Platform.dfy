/** What the plugin gets from libraries: Ed25519, serde_json and libp2p peer ids, as function values. */
module Platform {
  import opened Bytes
  import opened Utf8
  import opened Me

  datatype PlaintextChat = PlaintextChat(peer: Text, body: Text)

  datatype Platform = Platform(
    verifySig: (Key, Octets, Octets) -> bool,
    parseBindings: Octets -> Option<seq<SignedBinding>>,
    encodeBindings: seq<SignedBinding> -> Option<Octets>,
    parseChat: Octets -> Option<SignedChat>,
    parsePlain: Octets -> Option<PlaintextChat>,
    signChat: (Key, Octets, nat) -> Option<Octets>,
    peerKey: string -> Option<Key>)
  {
    /** `SignedBinding::verify` */
    predicate BindingVerifies(b: SignedBinding) {
      verifySig(b.signer, ClaimBytes(b.claim), b.signature)
    }

    /** `SignedChat::verify` */
    predicate ChatVerifies(c: SignedChat) {
      verifySig(c.author, ChatBytes(c), c.signature)
    }
  }
}
