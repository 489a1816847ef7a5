/** The chat page: its three pieces of state, the send guard and its
    transitions, the keyboard rule and the views derived from the list. */
module Client {
  import Text
  import opened Chat
  import Server

  const TimelineLength := 4
  const PreviewLimit := 60
  const Ellipsis := '\U{2026}'

  /** How a request to the backend ended: the list it returned, or an error
      (network failure or a non-2xx status). */
  datatype RoundTrip = Received(messages: seq<Message>) | RequestFailed

  /** The send button's `disabled` attribute: a send is in flight or the
      input is blank. */
  function SendDisabled(input: string, loading: bool): (r: bool)
    ensures r <==> loading || Text.IsBlank(input)
  {
    loading || Text.Trim(input) == ""
  }

  /** Enter submits; Shift+Enter keeps the textarea's newline. */
  predicate IsSendKey(key: string, shift: bool) {
    key == "Enter" && !shift
  }

  /** With nothing in flight, the client posts exactly the input the
      backend accepts, so a send from the page never draws a 400. */
  lemma GuardMatchesValidation(input: string)
    ensures !SendDisabled(input, false) <==> Server.Validate(Some(input)) == Some(input)
  {
  }

  /** `messages.filter(m => m.role === role)`: every message of that role,
      with its multiplicity, and no other. */
  function Filter(ms: seq<Message>, role: Role): (r: seq<Message>)
    ensures |r| <= |ms|
    ensures forall i :: 0 <= i < |r| ==> r[i].role == role && r[i] in ms
    ensures forall m {:trigger multiset(r)[m]} :: multiset(r)[m] == if m.role == role then multiset(ms)[m] else 0
  {
    if ms == [] then []
    else
      assert ms == [ms[0]] + ms[1..];
      (if ms[0].role == role then [ms[0]] else []) + Filter(ms[1..], role)
  }

  /** The "User turns" and "AI replies" counters: the number of messages
      with the role, which is zero exactly when no message has it and the
      total exactly when every message has it. */
  function CountRole(ms: seq<Message>, role: Role): (n: nat)
    ensures n <= |ms|
    ensures n == 0 <==> forall i :: 0 <= i < |ms| ==> ms[i].role != role
    ensures n == |ms| <==> forall i :: 0 <= i < |ms| ==> ms[i].role == role
  {
    CountRoleExtremes(ms, role);
    |Filter(ms, role)|
  }

  lemma {:induction false} CountRoleExtremes(ms: seq<Message>, role: Role)
    ensures Filter(ms, role) == [] <==> forall i :: 0 <= i < |ms| ==> ms[i].role != role
    ensures |Filter(ms, role)| == |ms| <==> forall i :: 0 <= i < |ms| ==> ms[i].role == role
    decreases |ms|
  {
    if ms != [] {
      var tail := ms[1..];
      CountRoleExtremes(tail, role);
      var rest := Filter(tail, role);
      assert forall i :: 1 <= i < |ms| ==> ms[i] == tail[i - 1];
      if ms[0].role == role {
        assert Filter(ms, role) == [ms[0]] + rest;
      } else {
        assert Filter(ms, role) == rest;
        assert |rest| <= |tail| < |ms|;
      }
    }
  }

  lemma {:induction false} FilterAppend(a: seq<Message>, b: seq<Message>, role: Role)
    ensures Filter(a + b, role) == Filter(a, role) + Filter(b, role)
    decreases |a|
  {
    if a == [] {
      assert a + b == b;
    } else {
      var head := if a[0].role == role then [a[0]] else [];
      assert (a + b)[0] == a[0] && (a + b)[1..] == a[1..] + b;
      assert Filter(a + b, role) == head + Filter(a[1..] + b, role);
      FilterAppend(a[1..], b, role);
    }
  }

  /** Every message is a user turn or an AI reply, so the two counters add
      up to the total. */
  lemma {:induction false} RoleCountsPartition(ms: seq<Message>)
    ensures CountRole(ms, User) + CountRole(ms, Assistant) == |ms|
    decreases |ms|
  {
    if ms != [] {
      RoleCountsPartition(ms[1..]);
    }
  }

  /** On a history made of completed exchanges the two counters are equal,
      each half the total. */
  lemma {:induction false} PairedCounts(ms: seq<Message>)
    requires Paired(ms)
    ensures CountRole(ms, User) == CountRole(ms, Assistant) == |ms| / 2
    decreases |ms|
  {
    if ms != [] {
      PairedCounts(ms[2..]);
      var pair := [ms[0], ms[1]];
      assert ms == pair + ms[2..];
      assert |Filter(pair, User)| == 1 && |Filter(pair, Assistant)| == 1 by {
        assert pair[1..] == [ms[1]] && [ms[1]][1..] == [];
      }
      FilterAppend(pair, ms[2..], User);
      FilterAppend(pair, ms[2..], Assistant);
    }
  }

  /** Appending a user message and an assistant message, as one accepted
      submission does, adds exactly one user turn and one AI reply to the
      counters. */
  lemma ExchangeCounts(ms: seq<Message>, user: Message, reply: Message)
    requires user.role == User && reply.role == Assistant
    ensures CountRole(ms + [user, reply], User) == CountRole(ms, User) + 1
    ensures CountRole(ms + [user, reply], Assistant) == CountRole(ms, Assistant) + 1
  {
    FilterAppend(ms, [user, reply], User);
    FilterAppend(ms, [user, reply], Assistant);
  }

  /** `s.reverse()`. */
  function Reverse(s: seq<Message>): (r: seq<Message>)
    ensures |r| == |s|
    ensures forall i :: 0 <= i < |s| ==> r[i] == s[|s| - 1 - i]
  {
    if s == [] then [] else Reverse(s[1..]) + [s[0]]
  }

  /** `messages.slice(-4).reverse()`: the last four messages (fewer when
      the list is shorter), newest first. */
  function Timeline(ms: seq<Message>): (r: seq<Message>)
    ensures |r| == if |ms| < TimelineLength then |ms| else TimelineLength
    ensures forall i :: 0 <= i < |r| ==> r[i] == ms[|ms| - 1 - i]
  {
    var start := if |ms| > TimelineLength then |ms| - TimelineLength else 0;
    Reverse(ms[start..])
  }

  /** The timeline text of one message: short content as it is, longer
      content cut to its first 60 characters followed by an ellipsis. */
  function Preview(content: string): (r: string)
    ensures |content| <= PreviewLimit ==> r == content
    ensures |content| > PreviewLimit ==>
      |r| == PreviewLimit + 1 && r[..PreviewLimit] == content[..PreviewLimit] && r[PreviewLimit] == Ellipsis
    ensures |r| <= PreviewLimit + 1
  {
    if |content| > PreviewLimit then content[..PreviewLimit] + [Ellipsis] else content
  }

  /** The page's state: the list shown, the textarea's text and whether a
      send is awaiting the backend. */
  class ChatClient {
    var messages: seq<Message>
    var input: string
    var loading: bool

    constructor ()
      ensures messages == [] && input == "" && !loading
    {
      messages, input, loading := [], "", false;
    }

    /** The history load on mount: replace the list on success, keep it on
        error. */
    method LoadHistory(result: RoundTrip)
      modifies this`messages
      ensures result.Received? ==> messages == result.messages
      ensures result.RequestFailed? ==> messages == old(messages)
    {
      if result.Received? {
        messages := result.messages;
      }
    }

    /** The textarea's change handler. */
    method Edit(text: string)
      modifies this`input
      ensures input == text
    {
      input := text;
    }

    /** `handleSend` up to its `await`: when the button would be disabled
        nothing happens and nothing is posted; otherwise the send is marked
        in flight and the input, untrimmed, is posted. */
    method HandleSend() returns (posted: Option<string>)
      modifies this`loading
      ensures posted.None? <==> SendDisabled(old(input), old(loading))
      ensures posted.None? ==> loading == old(loading)
      ensures posted.Some? ==> posted.value == input && loading
    {
      if Text.Trim(input) == "" || loading {
        return None;
      }
      loading := true;
      posted := Some(input);
    }

    /** The rest of `handleSend`, when the post settles: on success the
        server's list replaces the local one wholesale and the input is
        cleared; on failure both are kept. Either way the send is over. */
    method FinishSend(result: RoundTrip)
      modifies this`messages, this`input, this`loading
      ensures !loading
      ensures result.Received? ==> messages == result.messages && input == ""
      ensures result.RequestFailed? ==> messages == old(messages) && input == old(input)
    {
      if result.Received? {
        messages := result.messages;
        input := "";
      }
      loading := false;
    }

    /** The textarea's key handler: Enter without Shift suppresses the
        newline and starts a send; any other key is left to the textarea. */
    method HandleKeyDown(key: string, shift: bool) returns (prevented: bool, posted: Option<string>)
      modifies this`loading
      ensures prevented <==> IsSendKey(key, shift)
      ensures !prevented ==> posted.None? && loading == old(loading)
      ensures prevented ==>
        && (posted.None? <==> SendDisabled(old(input), old(loading)))
        && (posted.None? ==> loading == old(loading))
        && (posted.Some? ==> posted.value == input && loading)
    {
      prevented := IsSendKey(key, shift);
      posted := None;
      if prevented {
        posted := HandleSend();
      }
    }
  }
}
