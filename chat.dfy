/** The per-meeting chat log is a list appended at its right end; this
    module holds the read-side filter that selects one sender's messages. */
module Chat {
  import opened Model

  /** The messages of `chat` sent by `email`, in chat order. Each such
      message is kept as often as it occurs, and nothing else is kept. */
  function FromSender(chat: seq<ChatMessage>, email: string): (mine: seq<ChatMessage>)
    ensures multiset(mine) <= multiset(chat)
    ensures forall msg :: msg in mine ==> msg.email == email
    ensures forall msg: ChatMessage :: msg.email == email ==> multiset(mine)[msg] == multiset(chat)[msg]
  {
    if chat == [] then []
    else
      var rest := FromSender(chat[1..], email);
      assert chat == [chat[0]] + chat[1..];
      if chat[0].email == email then [chat[0]] + rest else rest
  }

  /** Filtering a log that grew by appending is filtering each part: the
      sender's messages keep the order in which they were appended. */
  lemma {:induction false} FromSenderAppend(older: seq<ChatMessage>, newer: seq<ChatMessage>, email: string)
    ensures FromSender(older + newer, email) == FromSender(older, email) + FromSender(newer, email)
    decreases |older|
  {
    if older != [] {
      FromSenderAppend(older[1..], newer, email);
      assert (older + newer)[1..] == older[1..] + newer;
    } else {
      assert older + newer == newer;
    }
  }

  /** A message just posted by a user is the last of that user's messages. */
  lemma PostedMessageIsLast(chat: seq<ChatMessage>, msg: ChatMessage)
    ensures FromSender(chat + [msg], msg.email) == FromSender(chat, msg.email) + [msg]
  {
    FromSenderAppend(chat, [msg], msg.email);
    assert FromSender([msg], msg.email) == [msg] by {
      assert [msg][1..] == [];
    }
  }
}
