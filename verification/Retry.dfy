/**
 * Retrying under the native SDK policy: finding the YDB error inside a wrapped
 * exception, and the retry loop around a failing call.
 */
module Retry {
  import opened Options

  // ---- Exception chains ----

  type Id = nat

  /** An exception: whether it is a YDB error, its `original_error`, its `__cause__`. */
  datatype Exc = Exc(isYdb: bool, original: Option<Id>, cause: Option<Id>)

  /** The exceptions that carry or cause anything, by identity; causes may form cycles. */
  type Graph = map<Id, Exc>

  function Of(g: Graph, id: Id): Exc {
    if id in g then g[id] else Exc(false, None, None)
  }

  /** The YDB error that a node is or carries, the node itself first. */
  function Carried(g: Graph, id: Id): Option<Id> {
    var x := Of(g, id);
    if x.isYdb then Some(id)
    else if x.original.Some? && Of(g, x.original.value).isYdb then x.original
    else None
  }

  /** The k-th exception along the causes, if the chain is that long. */
  function ChainAt(g: Graph, start: Id, k: nat): Option<Id> {
    if k == 0 then Some(start)
    else
      var p := ChainAt(g, start, k - 1);
      if p.None? then None else Of(g, p.value).cause
  }

  /** The search from one exception on, given those already seen. */
  function Unwrapped(g: Graph, current: Option<Id>, seen: set<Id>): Option<Id>
    decreases g.Keys - seen, current.Some?
  {
    if current.None? || current.value in seen then None
    else if Carried(g, current.value).Some? then Carried(g, current.value)
    else
      assert current.value !in g ==> g.Keys - (seen + {current.value}) == g.Keys - seen;
      Unwrapped(g, Of(g, current.value).cause, seen + {current.value})
  }

  /** `unwrap_ydb_error`: it terminates on every finite graph, cyclic or not. */
  method UnwrapYdbError(g: Graph, exc: Id) returns (r: Option<Id>)
    ensures r == Unwrapped(g, Some(exc), {})
  {
    var seen: set<Id> := {};
    var current: Option<Id> := Some(exc);
    while current.Some? && current.value !in seen
      invariant Unwrapped(g, Some(exc), {}) == Unwrapped(g, current, seen)
      decreases g.Keys - seen, current.Some?
    {
      var id := current.value;
      assert id !in g ==> g.Keys - (seen + {id}) == g.Keys - seen;
      seen := seen + {id};
      if Of(g, id).isYdb { return Some(id); }
      var original := Of(g, id).original;
      if original.Some? && Of(g, original.value).isYdb { return original; }
      current := Of(g, id).cause;
    }
    r := None;
  }

  /** The first `k` exceptions of the chain exist and carry no YDB error. */
  predicate NothingBefore(g: Graph, start: Id, k: nat) {
    k == 0
    || (NothingBefore(g, start, k - 1)
        && ChainAt(g, start, k - 1).Some? && Carried(g, ChainAt(g, start, k - 1).value).None?)
  }

  /** `r` is what the n-th exception of the chain carries, and no earlier one carries any. */
  predicate FirstAt(g: Graph, start: Id, n: nat, r: Option<Id>) {
    NothingBefore(g, start, n) && ChainAt(g, start, n).Some? && Carried(g, ChainAt(g, start, n).value) == r
  }

  /** No exception along the causes is or carries a YDB error. */
  ghost predicate Barren(g: Graph, start: Id) {
    forall m: nat :: ChainAt(g, start, m).Some? ==> Carried(g, ChainAt(g, start, m).value).None?
  }

  /** A set of exceptions without YDB errors that causes lead out of only to `current`. */
  predicate Searched(g: Graph, current: Option<Id>, seen: set<Id>) {
    forall id :: id in seen ==>
      Carried(g, id).None?
      && (Of(g, id).cause.None? || Of(g, id).cause.value in seen || Of(g, id).cause == current)
  }

  /** Once the chain returns to what was seen, it never leaves it. */
  lemma {:induction false} ChainStays(g: Graph, start: Id, current: Option<Id>, seen: set<Id>, m: nat)
    requires start in seen
    requires Searched(g, current, seen) && (current.None? || current.value in seen)
    ensures ChainAt(g, start, m).Some? ==> ChainAt(g, start, m).value in seen
  {
    if m > 0 {
      ChainStays(g, start, current, seen, m - 1);
    }
  }

  lemma {:induction false} SearchFinds(g: Graph, start: Id, k: nat, current: Option<Id>, seen: set<Id>)
    requires current == ChainAt(g, start, k)
    requires NothingBefore(g, start, k) && Searched(g, current, seen)
    requires start in seen || (k == 0 && current == Some(start))
    ensures var r := Unwrapped(g, current, seen);
            if r.Some? then exists n: nat :: FirstAt(g, start, n, r) else Barren(g, start)
    decreases g.Keys - seen, current.Some?
  {
    if current.None? || current.value in seen {
      forall m: nat | ChainAt(g, start, m).Some?
        ensures Carried(g, ChainAt(g, start, m).value).None?
      {
        ChainStays(g, start, current, seen, m);
      }
    } else if Carried(g, current.value).Some? {
      assert FirstAt(g, start, k, Carried(g, current.value));
    } else {
      var id := current.value;
      assert id !in g ==> g.Keys - (seen + {id}) == g.Keys - seen;
      SearchFinds(g, start, k + 1, Of(g, id).cause, seen + {id});
    }
  }

  /** The first YDB error along the causes is found; None means that no exception on them has one. */
  lemma UnwrapIsFirst(g: Graph, start: Id)
    ensures var r := Unwrapped(g, Some(start), {});
            && (r.Some? ==> exists n: nat :: FirstAt(g, start, n, r))
            && (r.None? <==> Barren(g, start))
  {
    SearchFinds(g, start, 0, Some(start), {});
    var r := Unwrapped(g, Some(start), {});
    if r.Some? {
      var n: nat :| FirstAt(g, start, n, r);
      assert Carried(g, ChainAt(g, start, n).value).Some?;
    }
  }

  /** The exception is the YDB error `y`, or has it as its `original_error`. */
  predicate Carries(g: Graph, id: Id, y: Id) {
    if Of(g, id).isYdb then y == id else Of(g, id).original == Some(y) && Of(g, y).isYdb
  }

  predicate CarriesNone(g: Graph, id: Id) {
    !Of(g, id).isYdb && (Of(g, id).original.None? || !Of(g, Of(g, id).original.value).isYdb)
  }

  /** `y` is the first YDB error that the exception or one of its causes carries. */
  ghost predicate CausedBy(g: Graph, start: Id, y: Id) {
    exists n: nat :: CausedAt(g, start, y, n)
  }

  predicate CausedAt(g: Graph, start: Id, y: Id, n: nat) {
    && ChainAt(g, start, n).Some? && Carries(g, ChainAt(g, start, n).value, y)
    && forall m :: 0 <= m < n && ChainAt(g, start, m).Some? ==> CarriesNone(g, ChainAt(g, start, m).value)
  }

  lemma {:induction false} NothingBeforeIff(g: Graph, start: Id, k: nat)
    requires ChainAt(g, start, k).Some?
    ensures NothingBefore(g, start, k)
       <==> forall m :: 0 <= m < k && ChainAt(g, start, m).Some? ==> CarriesNone(g, ChainAt(g, start, m).value)
  {
    if k > 0 {
      NothingBeforeIff(g, start, k - 1);
    }
  }

  lemma SameCause(g: Graph, start: Id, y: Id, n: nat, z: Id, m: nat)
    requires CausedAt(g, start, y, n) && CausedAt(g, start, z, m)
    ensures y == z
  {
    assert n >= m && m >= n;
  }

  /** Unwrapping finds the YDB error that an exception is caused by, wherever there is one. */
  lemma UnwrapsCause(g: Graph, start: Id, y: Id)
    ensures Unwrapped(g, Some(start), {}) == Some(y) <==> CausedBy(g, start, y)
  {
    UnwrapIsFirst(g, start);
    var r := Unwrapped(g, Some(start), {});
    if r.Some? {
      var n: nat :| FirstAt(g, start, n, r);
      NothingBeforeIff(g, start, n);
      assert CausedAt(g, start, r.value, n);
      if m: nat :| CausedAt(g, start, y, m) {
        SameCause(g, start, y, m, r.value, n);
      }
    } else if m: nat :| CausedAt(g, start, y, m) {
      assert false;
    }
  }

  // ---- The retry loop ----

  /** How one call of the wrapped function ends. */
  datatype Attempt<V> = Returned(v: V) | DjangoError(e: Id) | YdbError(y: Id) | OtherError(o: Id)

  datatype Result<V> = Value(v: V) | RaisedDjango(e: Id) | RaisedYdb(y: Id) | RaisedOther(o: Id)

  datatype Event = Called(attempt: nat) | CleanedUp | Notified(e: Id)

  /** The SDK's policy: how often to retry, and which errors. */
  datatype Policy = Policy(maxRetries: nat, retriable: Id -> bool)

  /** The wrapped call: its attempts, the exceptions it may raise, `using` and `on_error`. */
  datatype Call<!V> = Call(func: nat -> Attempt<V>, graph: Graph, using_: bool, onError: bool)

  /** The YDB error an attempt hands to the SDK, if any. */
  function YdbCause<V>(c: Call<V>, i: nat): Option<Id>
  {
    match c.func(i)
    case DjangoError(e) => Unwrapped(c.graph, Some(e), {})
    case YdbError(y) => Some(y)
    case _ => None
  }

  /** The attempt ends in the YDB error `y`, bare or as the cause of a Django error. */
  ghost predicate HandsOver<V>(c: Call<V>, i: nat, y: Id) {
    c.func(i) == YdbError(y) || (c.func(i).DjangoError? && CausedBy(c.graph, c.func(i).e, y))
  }

  /** The SDK has retries left, and the policy has this attempt retried. */
  ghost predicate Retriable<V>(c: Call<V>, p: Policy, i: nat) {
    i < p.maxRetries && exists y :: HandsOver(c, i, y) && p.retriable(y)
  }

  lemma HandsOverIff<V>(c: Call<V>, i: nat, y: Id)
    ensures YdbCause(c, i) == Some(y) <==> HandsOver(c, i, y)
  {
    if c.func(i).DjangoError? {
      UnwrapsCause(c.graph, c.func(i).e, y);
    }
  }

  lemma RetriedIff<V>(c: Call<V>, p: Policy, i: nat)
    ensures Retried(c, p, i) <==> Retriable(c, p, i)
  {
    if Retried(c, p, i) {
      HandsOverIff(c, i, YdbCause(c, i).value);
    }
    if y :| HandsOver(c, i, y) && p.retriable(y) {
      HandsOverIff(c, i, y);
    }
  }

  predicate Retried<V>(c: Call<V>, p: Policy, i: nat)
  {
    YdbCause(c, i).Some? && p.retriable(YdbCause(c, i).value) && i < p.maxRetries
  }

  /** The attempt after which the SDK gives up or returns, from attempt `i` on. */
  function LastAttempt<V>(c: Call<V>, p: Policy, i: nat): (last: nat)
    requires i <= p.maxRetries
    ensures i <= last <= p.maxRetries && !Retried(c, p, last)
    ensures forall j :: i <= j < last ==> Retried(c, p, j)
    decreases p.maxRetries - i
  {
    if Retried(c, p, i) then LastAttempt(c, p, i + 1) else i
  }

  /** What one attempt leaves in the log. */
  function EventsOf<V>(c: Call<V>, i: nat): seq<Event> {
    [Called(i)]
    + (if c.func(i).DjangoError? then
         (if c.using_ then [CleanedUp] else []) + (if c.onError then [Notified(c.func(i).e)] else [])
       else [])
  }

  function Events<V>(c: Call<V>, n: nat): seq<Event> {
    if n == 0 then [] else Events(c, n - 1) + EventsOf(c, n - 1)
  }

  /** The last Django error among the first `n` attempts. */
  function CapturedBy<V>(c: Call<V>, n: nat): Option<Id> {
    if n == 0 then None
    else if c.func(n - 1).DjangoError? then Some(c.func(n - 1).e)
    else CapturedBy(c, n - 1)
  }

  /** What the caller of the wrapper sees. */
  function Surfaced<V>(c: Call<V>, last: nat): Result<V>
  {
    match c.func(last)
    case Returned(v) => Value(v)
    case OtherError(o) => RaisedOther(o)
    case DjangoError(e) => RaisedDjango(e)
    case YdbError(y) => if CapturedBy(c, last).Some? then RaisedDjango(CapturedBy(c, last).value) else RaisedYdb(y)
  }

  /** The failure, or the value, of one attempt by itself. */
  function Own<V>(a: Attempt<V>): Result<V> {
    match a
    case Returned(v) => Value(v)
    case DjangoError(e) => RaisedDjango(e)
    case YdbError(y) => RaisedYdb(y)
    case OtherError(o) => RaisedOther(o)
  }

  class RetryOperation<V> {
    const call: Call<V>
    const policy: Policy
    /** The nonlocal `captured`. */
    var captured: Option<Id>
    var log: seq<Event>

    constructor (call: Call<V>, policy: Policy)
      ensures this.call == call && this.policy == policy && captured == None && log == []
    {
      this.call, this.policy := call, policy;
      captured, log := None, [];
    }

    ghost predicate After(n: nat)
      reads this
    {
      captured == CapturedBy(call, n) && log == Events(call, n)
    }

    /** `callee`: one attempt; a Django error is captured and its YDB cause raised instead. */
    method Callee(i: nat) returns (r: Result<V>)
      requires After(i)
      modifies this
      ensures After(i + 1)
      ensures YdbCause(call, i).Some? ==> r == RaisedYdb(YdbCause(call, i).value)
      ensures YdbCause(call, i).None? ==> r == Own(call.func(i))
      ensures forall y: Id :: HandsOver(call, i, y) <==> r == RaisedYdb(y)
    {
      forall y: Id
        ensures YdbCause(call, i) == Some(y) <==> HandsOver(call, i, y)
      {
        HandsOverIff(call, i, y);
      }
      log := log + [Called(i)];
      match call.func(i)
      case Returned(v) => r := Value(v);
      case YdbError(y) => r := RaisedYdb(y);
      case OtherError(o) => r := RaisedOther(o);
      case DjangoError(e) =>
        captured := Some(e);
        if call.using_ { log := log + [CleanedUp]; }
        if call.onError { log := log + [Notified(e)]; }
        var ydb := UnwrapYdbError(call.graph, e);
        r := if ydb.Some? then RaisedYdb(ydb.value) else RaisedDjango(e);
    }

    /** `ydb.retry_operation_sync`. */
    method RetryOperationSync() returns (r: Result<V>, ghost last: nat)
      requires After(0)
      modifies this
      ensures last == LastAttempt(call, policy, 0) && After(last + 1)
      ensures YdbCause(call, last).Some? ==> r == RaisedYdb(YdbCause(call, last).value)
      ensures YdbCause(call, last).None? ==> r == Own(call.func(last))
    {
      var i: nat := 0;
      while true
        invariant i <= policy.maxRetries && After(i)
        invariant LastAttempt(call, policy, 0) == LastAttempt(call, policy, i)
        decreases policy.maxRetries - i
      {
        r := Callee(i);
        if !r.RaisedYdb? || !policy.retriable(r.y) || i == policy.maxRetries {
          last := i;
          return;
        }
        i := i + 1;
      }
    }

    /** `retry_ydb_operation`: a YDB error that comes back is replaced by the captured Django error. */
    method Run() returns (r: Result<V>)
      requires After(0)
      modifies this
      ensures r == Surfaced(call, LastAttempt(call, policy, 0))
      ensures log == Events(call, LastAttempt(call, policy, 0) + 1)
      ensures Called(0) in log
      ensures forall i: nat :: Called(i + 1) in log <==> Called(i) in log && Retriable(call, policy, i)
      ensures forall i: nat, v :: Called(i) in log && call.func(i) == Returned(v) ==> r == Value(v)
    {
      ghost var last;
      r, last := RetryOperationSync();
      CallsAreRetries(call, policy);
      if r.RaisedYdb? && captured.Some? {
        r := RaisedDjango(captured.value);
      }
    }
  }

  // ---- What the protocol guarantees ----

  function CountCalls(log: seq<Event>): nat {
    if log == [] then 0 else (if log[0].Called? then 1 else 0) + CountCalls(log[1..])
  }

  lemma {:induction false} CountCallsConcat(a: seq<Event>, b: seq<Event>)
    ensures CountCalls(a + b) == CountCalls(a) + CountCalls(b)
  {
    if a == [] {
      assert a + b == b;
    } else {
      assert (a + b)[1..] == a[1..] + b;
      CountCallsConcat(a[1..], b);
    }
  }

  lemma {:induction false} CallsInEvents<V>(c: Call<V>, n: nat)
    ensures CountCalls(Events(c, n)) == n
  {
    if n > 0 {
      CallsInEvents(c, n - 1);
      CountCallsConcat(Events(c, n - 1), EventsOf(c, n - 1));
      var extra := EventsOf(c, n - 1)[1..];
      assert CountCalls(extra) == 0 by {
        assert forall x :: x in extra ==> !x.Called?;
        NoCalls(extra);
      }
    }
  }

  lemma {:induction false} NoCalls(log: seq<Event>)
    requires forall x :: x in log ==> !x.Called?
    ensures CountCalls(log) == 0
  {
    if log != [] {
      NoCalls(log[1..]);
    }
  }

  /** At most one attempt more than retries; nothing but a retriable YDB error is ever retried. */
  lemma AttemptsAreBounded<V>(c: Call<V>, p: Policy)
    ensures var last := LastAttempt(c, p, 0);
            && CountCalls(Events(c, last + 1)) == last + 1 <= p.maxRetries + 1
            && forall i :: 0 <= i < last ==> Retriable(c, p, i)
  {
    var last := LastAttempt(c, p, 0);
    CallsInEvents(c, last + 1);
    forall i | 0 <= i < last
      ensures Retriable(c, p, i)
    {
      assert Retried(c, p, i);
      RetriedIff(c, p, i);
    }
  }

  lemma {:induction false} CalledIff<V>(c: Call<V>, n: nat, i: nat)
    ensures Called(i) in Events(c, n) <==> i < n
  {
    if n > 0 {
      CalledIff(c, n - 1, i);
    }
  }

  /**
   * The first attempt is made, and after an attempt another one exactly when it
   * ended in a retriable YDB error, bare or as a cause, with retries left; an
   * attempt that returns is the last.
   */
  lemma CallsAreRetries<V>(c: Call<V>, p: Policy)
    ensures var last := LastAttempt(c, p, 0);
            var log := Events(c, last + 1);
            && Called(0) in log
            && (forall i: nat :: Called(i + 1) in log <==> Called(i) in log && Retriable(c, p, i))
            && (forall i: nat :: Called(i) in log && c.func(i).Returned? ==> i == last)
  {
    var last := LastAttempt(c, p, 0);
    var log := Events(c, last + 1);
    CalledIff(c, last + 1, 0);
    forall i: nat
      ensures Called(i + 1) in log <==> Called(i) in log && Retriable(c, p, i)
      ensures Called(i) in log && c.func(i).Returned? ==> i == last
    {
      CalledIff(c, last + 1, i);
      CalledIff(c, last + 1, i + 1);
      RetriedIff(c, p, i);
    }
  }

  lemma {:induction false} EventsPrefix<V>(c: Call<V>, i: nat, n: nat)
    requires i <= n
    ensures Events(c, i) <= Events(c, n)
  {
    if i < n {
      EventsPrefix(c, i, n - 1);
    }
  }

  /** Cleanup and then notification, once each, between a failed attempt and the next one. */
  lemma CleanupBeforeNextAttempt<V>(c: Call<V>, p: Policy, i: nat)
    requires i < LastAttempt(c, p, 0) && c.func(i).DjangoError?
    ensures var extra := (if c.using_ then [CleanedUp] else []) + (if c.onError then [Notified(c.func(i).e)] else []);
            Events(c, i) + ([Called(i)] + extra + [Called(i + 1)]) <= Events(c, LastAttempt(c, p, 0) + 1)
  {
    EventsPrefix(c, i + 2, LastAttempt(c, p, 0) + 1);
    var next := EventsOf(c, i + 1);
    assert Events(c, i + 2) == Events(c, i) + EventsOf(c, i) + next;
    PrefixOfThree(Events(c, i), EventsOf(c, i), next);
  }

  /** After every attempt that raised a Django error, the last one too. */
  lemma CleanupAfterEveryAttempt<V>(c: Call<V>, p: Policy, i: nat)
    requires i <= LastAttempt(c, p, 0) && c.func(i).DjangoError?
    ensures var extra := (if c.using_ then [CleanedUp] else []) + (if c.onError then [Notified(c.func(i).e)] else []);
            Events(c, i) + ([Called(i)] + extra) <= Events(c, LastAttempt(c, p, 0) + 1)
  {
    EventsPrefix(c, i + 1, LastAttempt(c, p, 0) + 1);
  }

  lemma PrefixOfThree<T>(a: seq<T>, b: seq<T>, c: seq<T>)
    requires c != []
    ensures a + (b + [c[0]]) <= a + b + c
  {
  }

  lemma {:induction false} CapturedIff<V>(c: Call<V>, n: nat)
    ensures CapturedBy(c, n).Some? <==> exists i :: 0 <= i < n && c.func(i).DjangoError?
  {
    if n > 0 {
      CapturedIff(c, n - 1);
    }
  }

  /**
   * The surfaced failure is that of the last attempt exactly when the last
   * attempt did not raise a bare YDB error after an earlier Django error.
   */
  lemma SurfacedIsLast<V>(c: Call<V>, last: nat)
    ensures Surfaced(c, last) == Own(c.func(last))
       <==> !(c.func(last).YdbError? && exists i :: 0 <= i < last && c.func(i).DjangoError?)
    ensures forall i :: 0 <= i < last && c.func(last).YdbError? && LastDjango(c, i, last) ==>
              Surfaced(c, last) == RaisedDjango(c.func(i).e)
  {
    CapturedIff(c, last);
    forall i | 0 <= i < last && c.func(last).YdbError? && LastDjango(c, i, last)
      ensures Surfaced(c, last) == RaisedDjango(c.func(i).e)
    {
      CapturedIsLast(c, i, last);
    }
  }

  /** Attempt `i` is the last before `n` that raised a Django error. */
  predicate LastDjango<V>(c: Call<V>, i: nat, n: nat) {
    i < n && c.func(i).DjangoError? && forall j :: i < j < n ==> !c.func(j).DjangoError?
  }

  lemma {:induction false} CapturedIsLast<V>(c: Call<V>, i: nat, n: nat)
    requires LastDjango(c, i, n)
    ensures CapturedBy(c, n) == Some(c.func(i).e)
  {
    if i < n - 1 {
      CapturedIsLast(c, i, n - 1);
    }
  }
}
