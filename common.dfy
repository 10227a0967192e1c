/** Shared vocabulary of the recording pipeline: optional values, the
    messages sent over the error callback, and powers of two. */
module Common {

  datatype Option<T> = None | Some(value: T)

  /** One call of an error callback: a fixed text, optionally followed by
      the text of a library error code (the `getFfmpegErrorString(ret)` or
      `ec.message()` suffix). */
  datatype Message = Message(text: string, code: Option<int>)

  function Report(text: string): Message { Message(text, None) }

  function ReportCode(text: string, code: int): Message { Message(text, Some(code)) }

  /** n is 2^k for some k >= 0. */
  predicate IsPow2(n: int)
    decreases n
  {
    n == 1 || (n > 1 && n % 2 == 0 && IsPow2(n / 2))
  }

  /** Doubling stays a power of two. */
  lemma {:induction false} Pow2Double(n: int)
    requires IsPow2(n)
    ensures IsPow2(n + n)
  {
    assert (n + n) / 2 == n;
  }

  /** Between a power of two and its double lies no other power of two. */
  lemma {:induction false} Pow2Gap(p: int, a: int)
    requires IsPow2(p) && IsPow2(a) && p < a + a
    ensures p <= a
    decreases a
  {
    if p != 1 && a != 1 {
      Pow2Gap(p / 2, a / 2);
    }
  }

  lemma {:induction false} SubsetCard<T>(a: set<T>, b: set<T>)
    requires a <= b
    ensures |a| <= |b|
    decreases a
  {
    if a != {} {
      var x :| x in a;
      SubsetCard(a - {x}, b - {x});
    }
  }

  /** The error callback every component of the pipeline is given: all of
      them are handed the recorder's callback, so one log receives every
      message, in the order the calls are made. */
  class ErrorLog {
    var messages: seq<Message>

    constructor ()
      ensures messages == []
    {
      messages := [];
    }

    /** Call the callback once. */
    method Send(m: Message)
      modifies this`messages
      ensures messages == old(messages) + [m]
    {
      messages := messages + [m];
    }

    /** One library call whose failure (a negative reply, which also stands
        for a null handle) is reported with `message`. */
    method Attempt<S>(step: S, reply: S -> int, message: (S, int) -> Message) returns (ok: bool)
      modifies this`messages
      ensures ok == Run([step], reply, message).None?
      ensures messages == old(messages) + Reported(Run([step], reply, message))
    {
      assert [step][1..] == [];
      ok := reply(step) >= 0;
      if !ok {
        Send(message(step, reply(step)));
      }
    }
  }

  // -----------------------------------------------------------------------
  // Sequences of library calls that stop at the first failure

  /** Run `plan` against the library's replies and stop at the first step
      it refuses: that step's message, or None when every step succeeds. */
  function Run<S>(plan: seq<S>, reply: S -> int, message: (S, int) -> Message): Option<Message>
    decreases |plan|
  {
    if plan == [] then None
    else if reply(plan[0]) < 0 then Some(message(plan[0], reply(plan[0])))
    else Run(plan[1..], reply, message)
  }

  /** What a run sends to the error callback. */
  function Reported(r: Option<Message>): seq<Message> {
    if r.Some? then [r.value] else []
  }

  /** A run is clean exactly when the library accepts every step. */
  lemma {:induction false} RunCleanIff<S>(plan: seq<S>, reply: S -> int, message: (S, int) -> Message)
    ensures Run(plan, reply, message).None? <==> forall i :: 0 <= i < |plan| ==> reply(plan[i]) >= 0
    decreases |plan|
  {
    if plan != [] {
      RunCleanIff(plan[1..], reply, message);
      assert forall i :: 1 <= i < |plan| ==> plan[i] == plan[1..][i - 1];
    }
  }

  /** A failing run reports the step of the first refusal: every earlier
      step was accepted. */
  lemma {:induction false} RunFirstFailure<S>(plan: seq<S>, reply: S -> int, message: (S, int) -> Message, k: nat)
    requires k < |plan| && reply(plan[k]) < 0
    requires forall i :: 0 <= i < k ==> reply(plan[i]) >= 0
    ensures Run(plan, reply, message) == Some(message(plan[k], reply(plan[k])))
    decreases k
  {
    if k > 0 {
      assert reply(plan[0]) >= 0;
      forall i | 0 <= i < k - 1 ensures reply(plan[1..][i]) >= 0 {
        assert plan[1..][i] == plan[i + 1];
      }
      RunFirstFailure(plan[1..], reply, message, k - 1);
    }
  }

  /** Running two step lists one after the other stops inside the first
      if it fails there, and otherwise behaves as the second alone. */
  lemma {:induction false} RunAppend<S>(a: seq<S>, b: seq<S>, reply: S -> int, message: (S, int) -> Message)
    ensures Run(a + b, reply, message) ==
      (if Run(a, reply, message).None? then Run(b, reply, message) else Run(a, reply, message))
    decreases |a|
  {
    if a == [] {
      assert a + b == b;
    } else {
      assert (a + b)[1..] == a[1..] + b;
      RunAppend(a[1..], b, reply, message);
    }
  }
}
