/** Chat messages (internal/types/message.go). */
module Messages {
  import opened VectorClocks

  datatype Option<+T> = None | Some(value: T)

  datatype Message = Message(
    id: string,
    senderId: string,
    senderName: string,
    content: string,
    mentions: seq<string>,
    mentionAll: bool,
    clock: Clock,
    prevHash: string,
    signature: string,
    isAI: bool)

  /** What is signed and hashed: every field but the signature. */
  function Payload(m: Message): Message {
    m.(signature := "")
  }

  /** The signature covers the message: every field but itself, each as it is. */
  lemma PayloadMeaning(a: Message, b: Message)
    ensures Payload(a) == Payload(b) <==>
      && a.id == b.id && a.senderId == b.senderId && a.senderName == b.senderName && a.content == b.content
      && a.mentions == b.mentions && a.mentionAll == b.mentionAll && a.clock == b.clock && a.prevHash == b.prevHash
      && a.isAI == b.isAI
    ensures Payload(a).content == a.content && Payload(a).mentions == a.mentions && Payload(a).signature == ""
  {
  }

  /** The sender's own entry in the clock of its message. */
  function OwnClock(m: Message): nat {
    At(m.clock, m.senderId)
  }

  function Unsigned(id: string, senderId: string, senderName: string, content: string, mentions: seq<string>,
                    mentionAll: bool, clock: Clock, prevHash: string, isAI: bool): Message
  {
    Message(id, senderId, senderName, content, mentions, mentionAll, clock, prevHash, "", isAI)
  }
}
