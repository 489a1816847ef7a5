/** The message record shared by the backend and the client. */
module Chat {
  import Text

  datatype Option<+T> = None | Some(value: T)

  /** Who wrote a message. */
  datatype Role = User | Assistant

  /** One stored turn: `id` is the epoch-millisecond clock reading of the
      submission (plus one for the reply), `createdAt` its ISO time string. */
  datatype Message = Message(id: int, role: Role, content: string, createdAt: string)

  /** A completed exchange: a user message with non-blank content, followed
      by the assistant's non-empty reply whose id is one more. */
  predicate IsTurn(user: Message, reply: Message) {
    && user.role == User && !Text.IsBlank(user.content)
    && reply.role == Assistant && reply.content != ""
    && reply.id == user.id + 1
  }

  /** The history is a sequence of completed exchanges: no user message is
      left without its paired reply. */
  predicate Paired(ms: seq<Message>)
    decreases |ms|
  {
    ms == [] || (|ms| >= 2 && IsTurn(ms[0], ms[1]) && Paired(ms[2..]))
  }

  /** Appending one completed exchange keeps a history paired, and a history
      that ends in a non-exchange is not paired. */
  lemma {:induction false} PairedAppend(ms: seq<Message>, user: Message, reply: Message)
    requires Paired(ms)
    ensures Paired(ms + [user, reply]) <==> IsTurn(user, reply)
    decreases |ms|
  {
    if ms == [] {
      assert ms + [user, reply] == [user, reply];
      assert [user, reply][2..] == [];
    } else {
      PairedAppend(ms[2..], user, reply);
      assert (ms + [user, reply])[2..] == ms[2..] + [user, reply];
    }
  }

  /** In a paired history the k-th exchange sits at positions 2k and 2k+1. */
  lemma {:induction false} PairedAt(ms: seq<Message>, k: nat)
    requires Paired(ms) && k < |ms| / 2
    ensures 2 * k + 1 < |ms| && IsTurn(ms[2 * k], ms[2 * k + 1])
    decreases k
  {
    if k > 0 {
      PairedAt(ms[2..], k - 1);
    }
  }
}
