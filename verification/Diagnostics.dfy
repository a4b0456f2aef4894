/**
 * Diagnostic transactions. A thread that has opened a transaction has its diagnostics kept until it commits them, which
 * hands them to the handler, or clears them; outside a transaction a diagnostic goes to the handler at once.
 *
 * The engine's own state is guarded by a mutex, but a diagnostic outside a transaction is handed over after the mutex
 * is released, and a commit hands over one diagnostic after another. So the protocol is a state machine over the steps
 * that other threads can come between.
 */
module Diagnostics {
  import opened Wrappers

  type ThreadId = nat

  // ----- which diagnostics are accepted -----

  datatype WarnGroup = NONE | UNGROUPED | GROUP(name: string)

  datatype Diagnostic = Diagnostic(message: string, isWarning: bool, warnGroup: WarnGroup, isUnusedMain: bool,
                                   subDiags: seq<string>)

  datatype Options = Options(enableDiagnose: bool, disableWarning: bool, suppressed: set<WarnGroup>,
                             suppressesUnusedMain: bool)

  /** A diagnostic that is not recorded at all. Only warnings can be suppressed. */
  predicate IsDropped(d: Diagnostic, o: Options) {
    !o.enableDiagnose ||
    (d.isWarning &&
     (o.disableWarning || d.warnGroup in o.suppressed || (o.suppressesUnusedMain && d.isUnusedMain)))
  }

  function SuppressionNote(group: string): string {
    "this warning can be suppressed by setting the compiler option `-Woff " + group + "`"
  }

  /** What is recorded of a diagnostic; a warning that an option could suppress gets a note that says so. */
  function Noted(d: Diagnostic): Diagnostic {
    if d.isWarning && d.warnGroup.GROUP? then d.(subDiags := d.subDiags + [SuppressionNote(d.warnGroup.name)]) else d
  }

  lemma NoteSays(group: string)
    ensures SuppressionNote(group)
         == "this warning can be suppressed by setting the compiler option `-Woff " + group + "`"
  {
  }

  // ----- the shared state -----

  datatype Delivery = Delivery(thread: ThreadId, diagnostic: Diagnostic)

  /** The maps that the mutex guards, and what the handler was given so far. */
  datatype Shared = Shared(isInTransaction: map<ThreadId, bool>, transactionMap: map<ThreadId, seq<Diagnostic>>,
                           handled: seq<Delivery>)
  {
    predicate InTransaction(t: ThreadId) {
      t in isInTransaction && isInTransaction[t]
    }

    function Pending(t: ThreadId): seq<Diagnostic> {
      if t in transactionMap then transactionMap[t] else []
    }

    function Deliver(t: ThreadId, d: Diagnostic): Shared {
      this.(handled := handled + [Delivery(t, d)])
    }

    /** The guarded part of handling a diagnostic: it is kept, or it is seen that no transaction is open. */
    function Record(t: ThreadId, d: Diagnostic): Shared {
      if InTransaction(t) then this.(transactionMap := transactionMap[t := Pending(t) + [d]])
      else this.(isInTransaction := isInTransaction[t := false])
    }

    function Open(t: ThreadId): Shared {
      this.(isInTransaction := isInTransaction[t := true], transactionMap := transactionMap[t := []])
    }

    function Close(t: ThreadId): Shared {
      this.(isInTransaction := isInTransaction - {t}, transactionMap := transactionMap - {t})
    }
  }

  /** A diagnostic goes behind those that a thread's open transaction keeps, or behind all that were handed over. */
  predicate Takes(before: Shared, after: Shared, t: ThreadId, d: Diagnostic) {
    if t in before.isInTransaction && before.isInTransaction[t] then
      && after.isInTransaction == before.isInTransaction && after.handled == before.handled
      && after.transactionMap == before.transactionMap[t :=
           (if t in before.transactionMap then before.transactionMap[t] else []) + [d]]
    else
      && after.isInTransaction == before.isInTransaction[t := false] && after.transactionMap == before.transactionMap
      && after.handled == before.handled + [Delivery(t, d)]
  }

  function Deliveries(t: ThreadId, ds: seq<Diagnostic>): seq<Delivery> {
    seq(|ds|, i requires 0 <= i < |ds| => Delivery(t, ds[i]))
  }

  /** The engine, as one thread uses it while no other comes between. */
  class DiagnosticEngine {
    var isInTransaction: map<ThreadId, bool>
    var transactionMap: map<ThreadId, seq<Diagnostic>>
    var handled: seq<Delivery>
    var options: Options

    function View(): Shared
      reads this
    {
      Shared(isInTransaction, transactionMap, handled)
    }

    /**
     * With diagnosing enabled, everything but a suppressed warning is kept where a transaction is open and handed over
     * where none is: as it is, but for a warning of a named group, which has one more note.
     */
    method HandleDiagnostic(t: ThreadId, diagnostic: Diagnostic)
      requires diagnostic.isWarning ==> diagnostic.warnGroup != NONE
      modifies this`isInTransaction, this`transactionMap, this`handled
      ensures var off := options.disableWarning || diagnostic.warnGroup in options.suppressed ||
                         (options.suppressesUnusedMain && diagnostic.isUnusedMain);
        var note :=
          if diagnostic.isWarning && diagnostic.warnGroup.GROUP? then
            var name := diagnostic.warnGroup.name;
            ["this warning can be suppressed by setting the compiler option `-Woff " + name + "`"]
          else [];
        if !options.enableDiagnose || (diagnostic.isWarning && off) then View() == old(View())
        else Takes(old(View()), View(), t, diagnostic.(subDiags := diagnostic.subDiags + note))
      ensures var d := Noted(diagnostic);
        View() == if IsDropped(diagnostic, options) then old(View())
                  else if old(View()).InTransaction(t) then old(View()).Record(t, d)
                  else old(View()).Record(t, d).Deliver(t, d)
    {
      hide SuppressionNote;
      if diagnostic.warnGroup.GROUP? {
        NoteSays(diagnostic.warnGroup.name);
      }
      if !options.enableDiagnose {
        return;
      }
      var d := diagnostic;
      assert d.subDiags + [] == d.subDiags;
      if d.isWarning {
        if options.disableWarning || d.warnGroup in options.suppressed
           || (options.suppressesUnusedMain && d.isUnusedMain) {
          return;
        } else if d.warnGroup != UNGROUPED {
          d := d.(subDiags := d.subDiags + [SuppressionNote(d.warnGroup.name)]);
        }
      }
      if t in isInTransaction && isInTransaction[t] {
        transactionMap := transactionMap[t := (if t in transactionMap then transactionMap[t] else []) + [d]];
      } else {
        isInTransaction := isInTransaction[t := false];
        handled := handled + [Delivery(t, d)];
      }
    }

    method Prepare(t: ThreadId)
      requires !View().InTransaction(t)
      modifies this`isInTransaction, this`transactionMap
      ensures View() == old(View()).Open(t)
    {
      isInTransaction := isInTransaction[t := true];
      transactionMap := transactionMap[t := []];
    }

    method Commit(t: ThreadId)
      requires View().InTransaction(t)
      modifies this`isInTransaction, this`transactionMap, this`handled
      ensures View()
           == old(View()).Close(t).(handled := old(handled) + Deliveries(t, old(View()).Pending(t)))
    {
      var cachedDiagnostic := if t in transactionMap then transactionMap[t] else [];
      for i := 0 to |cachedDiagnostic|
        invariant isInTransaction == old(isInTransaction) && transactionMap == old(transactionMap)
        invariant handled == old(handled) + Deliveries(t, cachedDiagnostic[..i])
      {
        handled := handled + [Delivery(t, cachedDiagnostic[i])];
        assert Deliveries(t, cachedDiagnostic[..i + 1])
            == Deliveries(t, cachedDiagnostic[..i]) + [Delivery(t, cachedDiagnostic[i])];
      }
      assert cachedDiagnostic[..|cachedDiagnostic|] == cachedDiagnostic;
      transactionMap := transactionMap - {t};
      isInTransaction := isInTransaction - {t};
    }

    method ClearTransaction(t: ThreadId)
      requires View().InTransaction(t)
      modifies this`isInTransaction, this`transactionMap
      ensures View() == old(View()).Close(t)
    {
      transactionMap := transactionMap - {t};
      isInTransaction := isInTransaction - {t};
    }
  }

  // ----- what a thread's calls amount to -----

  /** A call of one thread; a diagnostic that is dropped is no call. */
  datatype Call = Handled(d: Diagnostic) | Prepared | Committed | Cleared

  /** What was handed over, and what an open transaction keeps. */
  datatype Outcome = Outcome(delivered: seq<Diagnostic>, pending: seq<Diagnostic>, open: bool)

  /** What one more call makes of an outcome. */
  function OneMore(o: Outcome, call: Call): Outcome {
    match call
    case Handled(d) => if o.open then o.(pending := o.pending + [d]) else o.(delivered := o.delivered + [d])
    case Prepared => Outcome(o.delivered, [], true)
    case Committed => Outcome(o.delivered + o.pending, [], false)
    case Cleared => Outcome(o.delivered, [], false)
  }

  /** The calls of a thread without any other thread. */
  function OutcomeOf(calls: seq<Call>): Outcome {
    if calls == [] then Outcome([], [], false)
    else
      var o := OutcomeOf(calls[..|calls| - 1]);
      OneMore(o, calls[|calls| - 1])
  }

  /** Transactions are opened when none is open, and committed or cleared when one is. */
  predicate IsLegal(calls: seq<Call>) {
    calls == [] ||
    (var init, call := calls[..|calls| - 1], calls[|calls| - 1];
     && IsLegal(init)
     && (call.Prepared? ==> !OutcomeOf(init).open)
     && (call.Committed? || call.Cleared? ==> OutcomeOf(init).open))
  }

  /** The first call after a diagnostic that is not another diagnostic decides its fate. */
  function NextControl(calls: seq<Call>): Option<Call> {
    if calls == [] then None else if calls[0].Handled? then NextControl(calls[1..]) else Some(calls[0])
  }

  /** The diagnostics of a thread, in its order, without those whose transaction it clears next. */
  function Kept(calls: seq<Call>): seq<Diagnostic> {
    if calls == [] then []
    else
      (if calls[0].Handled? && NextControl(calls[1..]) != Some(Cleared) then [calls[0].d] else []) + Kept(calls[1..])
  }

  /** The diagnostics after the last other call. */
  function Trailing(calls: seq<Call>): seq<Diagnostic> {
    if calls == [] then []
    else (if NextControl(calls).None? && calls[0].Handled? then [calls[0].d] else []) + Trailing(calls[1..])
  }

  lemma {:induction false} NextControlOfMore(calls: seq<Call>, call: Call)
    ensures NextControl(calls + [call])
         == if NextControl(calls).Some? then NextControl(calls) else if call.Handled? then None else Some(call)
  {
    if calls == [] {
      assert (calls + [call])[1..] == [];
    } else {
      assert (calls + [call])[1..] == calls[1..] + [call];
      NextControlOfMore(calls[1..], call);
    }
  }

  /** One more call: a diagnostic is kept for now, and opening and committing change nothing. */
  lemma {:induction false} KeptOfMore(calls: seq<Call>, call: Call)
    requires !call.Cleared?
    ensures Kept(calls + [call]) == Kept(calls) + if call.Handled? then [call.d] else []
  {
    if calls == [] {
      assert (calls + [call])[1..] == [];
    } else {
      assert (calls + [call])[1..] == calls[1..] + [call];
      KeptOfMore(calls[1..], call);
      NextControlOfMore(calls[1..], call);
    }
  }

  /** Clearing drops the diagnostics since the last other call. */
  lemma {:induction false} KeptOfCleared(calls: seq<Call>)
    ensures Kept(calls + [Cleared]) + Trailing(calls) == Kept(calls)
    ensures NextControl(calls).None? ==> Kept(calls + [Cleared]) == []
  {
    if calls == [] {
      assert (calls + [Cleared])[1..] == [];
    } else {
      var rest := calls[1..];
      assert (calls + [Cleared])[1..] == rest + [Cleared];
      KeptOfCleared(rest);
      NextControlOfMore(rest, Cleared);
      var cut, tail := Kept(rest + [Cleared]), Trailing(rest);
      if !calls[0].Handled? {
        assert Kept(calls + [Cleared]) == [] + cut && Trailing(calls) == [] + tail && Kept(calls) == [] + Kept(rest);
      } else if NextControl(rest).None? {
        assert Kept(calls + [Cleared]) == [] + cut && Trailing(calls) == [calls[0].d] + tail;
        assert Kept(calls) == [calls[0].d] + Kept(rest);
      } else {
        var first := if NextControl(rest) != Some(Cleared) then [calls[0].d] else [];
        assert Kept(calls + [Cleared]) == first + cut && Trailing(calls) == [] + tail;
        assert Kept(calls) == first + Kept(rest);
        assert first + cut + tail == first + (cut + tail);
      }
    }
  }

  lemma {:induction false} TrailingOfMore(calls: seq<Call>, call: Call)
    ensures Trailing(calls + [call]) == if call.Handled? then Trailing(calls) + [call.d] else []
  {
    if calls == [] {
      assert (calls + [call])[1..] == [];
    } else {
      assert (calls + [call])[1..] == calls[1..] + [call];
      TrailingOfMore(calls[1..], call);
      NextControlOfMore(calls, call);
    }
  }

  lemma CancelRight(a: seq<Diagnostic>, b: seq<Diagnostic>, end: seq<Diagnostic>)
    requires a + end == b + end
    ensures a == b
  {
    assert |a + end| == |b + end|;
    assert a == (a + end)[..|a|] && b == (b + end)[..|b|];
  }

  /**
   * Every diagnostic that is not cleared is delivered or still pending, exactly once and in order, and pending ones
   * exist only while a transaction is open.
   */
  lemma {:induction false} DeliveredOrPending(calls: seq<Call>)
    requires IsLegal(calls)
    ensures var o := OutcomeOf(calls);
      && o.delivered + o.pending == Kept(calls)
      && o.pending == if o.open then Trailing(calls) else []
  {
    if calls != [] {
      var init, call := calls[..|calls| - 1], calls[|calls| - 1];
      assert calls == init + [call];
      DeliveredOrPending(init);
      TrailingOfMore(init, call);
      var o := OutcomeOf(init);
      if call.Cleared? {
        KeptOfCleared(init);
        CancelRight(Kept(calls), o.delivered, o.pending);
      } else {
        KeptOfMore(init, call);
      }
    }
  }

  // ----- threads that come between each other -----

  /** Where a thread is: between calls, about to hand a diagnostic over, or committing with the mutex held. */
  datatype Pc = Idle | Delivering(d: Diagnostic) | Committing(rest: seq<Diagnostic>)

  datatype State = State(shared: Shared, pcs: map<ThreadId, Pc>, holder: Option<ThreadId>)
  {
    function PcOf(t: ThreadId): Pc {
      if t in pcs then pcs[t] else Idle
    }

    function At(t: ThreadId, pc: Pc): State {
      this.(pcs := pcs[t := pc])
    }
  }

  /**
   * The steps of a thread. `Handle` raises a diagnostic under the options of the moment; it ends where that is dropped,
   * or else where the mutex is released.
   */
  datatype Action =
    | Handle(t: ThreadId, d: Diagnostic, o: Options) | HandOver(t: ThreadId) | Prepare(t: ThreadId)
    | BeginCommit(t: ThreadId) | CommitOne(t: ThreadId) | EndCommit(t: ThreadId) | Clear(t: ThreadId)

  /** A step that takes the mutex waits for it; the asserted conditions of the calls hold. */
  predicate CanDo(s: State, a: Action) {
    match a
    case Handle(t, d, o) =>
      s.PcOf(t) == Idle && (d.isWarning ==> d.warnGroup != NONE) && (IsDropped(d, o) || s.holder.None?)
    case HandOver(t) => s.PcOf(t).Delivering?
    case Prepare(t) => s.PcOf(t) == Idle && s.holder.None? && !s.shared.InTransaction(t)
    case BeginCommit(t) => s.PcOf(t) == Idle && s.holder.None? && s.shared.InTransaction(t)
    case CommitOne(t) => s.PcOf(t).Committing? && s.PcOf(t).rest != []
    case EndCommit(t) => s.PcOf(t) == Committing([])
    case Clear(t) => s.PcOf(t) == Idle && s.holder.None? && s.shared.InTransaction(t)
  }

  function Do(s: State, a: Action): State
    requires CanDo(s, a)
  {
    match a
    case Handle(t, d, o) =>
      if IsDropped(d, o) then s
      else
        s.(shared := s.shared.Record(t, Noted(d)))
         .At(t, if s.shared.InTransaction(t) then Idle else Delivering(Noted(d)))
    case HandOver(t) => s.(shared := s.shared.Deliver(t, s.PcOf(t).d)).At(t, Idle)
    case Prepare(t) => s.(shared := s.shared.Open(t))
    case BeginCommit(t) => s.(holder := Some(t)).At(t, Committing(s.shared.Pending(t)))
    case CommitOne(t) =>
      var rest := s.PcOf(t).rest;
      s.(shared := s.shared.Deliver(t, rest[0])).At(t, Committing(rest[1..]))
    case EndCommit(t) => s.(shared := s.shared.Close(t), holder := None).At(t, Idle)
    case Clear(t) => s.(shared := s.shared.Close(t))
  }

  const START := State(Shared(map[], map[], []), map[], None)

  predicate IsRun(actions: seq<Action>)
    decreases |actions|, 0
  {
    actions == [] ||
    (IsRun(actions[..|actions| - 1]) && CanDo(After(actions[..|actions| - 1]), actions[|actions| - 1]))
  }

  function After(actions: seq<Action>): State
    requires IsRun(actions)
    decreases |actions|, 1
  {
    if actions == [] then START else Do(After(actions[..|actions| - 1]), actions[|actions| - 1])
  }

  /** The calls of one thread in a run, in its order; a commit counts from where it takes the mutex. */
  function CallsOf(actions: seq<Action>, t: ThreadId): seq<Call> {
    if actions == [] then []
    else
      var a := actions[|actions| - 1];
      CallsOf(actions[..|actions| - 1], t) + if a.t == t then CallOf(a) else []
  }

  function CallOf(a: Action): seq<Call> {
    match a
    case Handle(_, d, o) => if IsDropped(d, o) then [] else [Handled(Noted(d))]
    case Prepare(_) => [Prepared]
    case BeginCommit(_) => [Committed]
    case Clear(_) => [Cleared]
    case _ => []
  }

  /** What the handler got from one thread. */
  function From(handled: seq<Delivery>, t: ThreadId): seq<Diagnostic> {
    if handled == [] then []
    else
      var last := handled[|handled| - 1];
      From(handled[..|handled| - 1], t) + if last.thread == t then [last.diagnostic] else []
  }

  /** A thread's deliveries, and those it is about to make, are what its own calls amount to. */
  ghost predicate Follows(s: State, t: ThreadId, o: Outcome) {
    match s.PcOf(t)
    case Idle =>
      From(s.shared.handled, t) == o.delivered && s.shared.Pending(t) == o.pending &&
        s.shared.InTransaction(t) == o.open
    case Delivering(d) =>
      From(s.shared.handled, t) + [d] == o.delivered && s.shared.Pending(t) == o.pending == []
      && !s.shared.InTransaction(t) && !o.open
    case Committing(rest) =>
      From(s.shared.handled, t) + rest == o.delivered && o.pending == [] && !o.open && s.shared.InTransaction(t)
  }

  /** Only a committing thread holds the mutex. */
  ghost predicate Exclusive(s: State) {
    forall t: ThreadId :: s.PcOf(t).Committing? <==> s.holder == Some(t)
  }

  lemma FromMore(handled: seq<Delivery>, d: Delivery, t: ThreadId)
    ensures From(handled + [d], t) == From(handled, t) + if d.thread == t then [d.diagnostic] else []
  {
    assert (handled + [d])[..|handled|] == handled;
  }

  /** A step of another thread leaves a thread where it is. */
  lemma OtherStepFollows(s: State, a: Action, t: ThreadId, o: Outcome)
    requires CanDo(s, a) && a.t != t && Follows(s, t, o)
    ensures Follows(Do(s, a), t, o)
  {
    hide From, IsDropped, Noted;
    if a.HandOver? {
      FromMore(s.shared.handled, Delivery(a.t, s.PcOf(a.t).d), t);
    } else if a.CommitOne? {
      FromMore(s.shared.handled, Delivery(a.t, s.PcOf(a.t).rest[0]), t);
    }
  }

  /** A thread's own step follows its calls. */
  lemma OwnStepFollows(s: State, a: Action, o: Outcome)
    requires CanDo(s, a) && Follows(s, a.t, o) && (!o.open ==> o.pending == [])
    ensures var call := CallOf(a);
      if call == [] then Follows(Do(s, a), a.t, o)
      else
        && Follows(Do(s, a), a.t, OneMore(o, call[0]))
        && (call[0].Prepared? ==> !o.open) && (call[0].Committed? || call[0].Cleared? ==> o.open)
  {
    hide From, IsDropped, Noted;
    if a.HandOver? {
      FromMore(s.shared.handled, Delivery(a.t, s.PcOf(a.t).d), a.t);
    } else if a.CommitOne? {
      FromMore(s.shared.handled, Delivery(a.t, s.PcOf(a.t).rest[0]), a.t);
    }
  }

  lemma StepFollows(s: State, a: Action, t: ThreadId, calls: seq<Call>)
    requires CanDo(s, a) && Follows(s, t, OutcomeOf(calls)) && IsLegal(calls)
    ensures var more := calls + if a.t == t then CallOf(a) else [];
      Follows(Do(s, a), t, OutcomeOf(more)) && IsLegal(more)
  {
    hide Do, CanDo, Follows;
    var call := if a.t == t then CallOf(a) else [];
    if call == [] {
      assert calls + call == calls;
    } else {
      assert (calls + call)[..|calls|] == calls;
    }
    if a.t == t {
      DeliveredOrPending(calls);
      OwnStepFollows(s, a, OutcomeOf(calls));
    } else {
      OtherStepFollows(s, a, t, OutcomeOf(calls));
    }
  }

  lemma StepIsExclusive(s: State, a: Action)
    requires CanDo(s, a) && Exclusive(s)
    ensures Exclusive(Do(s, a))
  {
  }

  /**
   * In every interleaving, a thread's deliveries are those of its own calls in their order, those about to be made
   * included, and its pending diagnostics are its own. At most one thread holds the mutex.
   */
  lemma {:induction false} EveryRunFollows(actions: seq<Action>, t: ThreadId)
    requires IsRun(actions)
    ensures Follows(After(actions), t, OutcomeOf(CallsOf(actions, t))) && IsLegal(CallsOf(actions, t))
    ensures Exclusive(After(actions))
  {
    if actions != [] {
      var init, a := actions[..|actions| - 1], actions[|actions| - 1];
      EveryRunFollows(init, t);
      StepFollows(After(init), a, t, CallsOf(init, t));
      StepIsExclusive(After(init), a);
    }
  }

  /** The next of a thread's steps by which it opens, commits or clears a transaction. */
  function NextControlOf(actions: seq<Action>, t: ThreadId): Option<Action> {
    if actions == [] then None
    else if actions[0].t == t && (actions[0].Prepare? || actions[0].BeginCommit? || actions[0].Clear?)
    then Some(actions[0])
    else NextControlOf(actions[1..], t)
  }

  /** What a thread raises, in its order, without what is dropped and what the thread clears next; with the notes. */
  function Surviving(actions: seq<Action>, t: ThreadId): seq<Diagnostic> {
    if actions == [] then []
    else
      var a := actions[0];
      (if a.Handle? && a.t == t && !IsDropped(a.d, a.o) && NextControlOf(actions[1..], t) != Some(Clear(t))
       then [Noted(a.d)] else [])
      + Surviving(actions[1..], t)
  }

  lemma {:induction false} FirstCalls(actions: seq<Action>, t: ThreadId)
    requires actions != []
    ensures CallsOf(actions, t) ==
            (if actions[0].t == t then CallOf(actions[0]) else []) + CallsOf(actions[1..], t)
  {
    if |actions| > 1 {
      var init := actions[..|actions| - 1];
      FirstCalls(init, t);
      assert init[1..] == actions[1..][..|actions| - 2];
    }
  }

  lemma {:induction false} ControlOfCalls(actions: seq<Action>, t: ThreadId)
    ensures match NextControlOf(actions, t)
            case None => NextControl(CallsOf(actions, t)).None?
            case Some(a) => CallOf(a) != [] && NextControl(CallsOf(actions, t)) == Some(CallOf(a)[0])
    ensures NextControlOf(actions, t) == Some(Clear(t)) <==> NextControl(CallsOf(actions, t)) == Some(Cleared)
  {
    if actions != [] {
      hide IsDropped, Noted;
      FirstCalls(actions, t);
      ControlOfCalls(actions[1..], t);
      var rest, calls := CallsOf(actions[1..], t), CallsOf(actions, t);
      assert calls == rest || calls[1..] == rest;
    }
  }

  lemma {:induction false} KeptIsSurviving(actions: seq<Action>, t: ThreadId)
    ensures Kept(CallsOf(actions, t)) == Surviving(actions, t)
  {
    if actions != [] {
      hide IsDropped, Noted;
      FirstCalls(actions, t);
      ControlOfCalls(actions[1..], t);
      KeptIsSurviving(actions[1..], t);
      var rest, calls := CallsOf(actions[1..], t), CallsOf(actions, t);
      assert calls == rest || calls[1..] == rest;
    }
  }

  /**
   * Between its calls a thread has had exactly those of the diagnostics it raised delivered, once each and in order,
   * that are neither dropped nor pending nor cleared by itself; pending ones exist only inside an open transaction.
   */
  lemma AcceptedDiagnosticsArrive(actions: seq<Action>, t: ThreadId)
    requires IsRun(actions) && After(actions).PcOf(t) == Idle
    ensures var s := After(actions).shared;
      && From(s.handled, t) + s.Pending(t) == Surviving(actions, t)
      && (!s.InTransaction(t) ==> s.Pending(t) == [])
  {
    EveryRunFollows(actions, t);
    DeliveredOrPending(CallsOf(actions, t));
    KeptIsSurviving(actions, t);
  }

  /** What other threads do makes no difference: runs that agree on a thread's calls agree on its deliveries. */
  lemma OtherThreadsDoNotMatter(run: seq<Action>, other: seq<Action>, t: ThreadId)
    requires IsRun(run) && IsRun(other) && CallsOf(run, t) == CallsOf(other, t)
    requires After(run).PcOf(t) == Idle && After(other).PcOf(t) == Idle
    ensures From(After(run).shared.handled, t) == From(After(other).shared.handled, t)
    ensures After(run).shared.Pending(t) == After(other).shared.Pending(t)
  {
    EveryRunFollows(run, t);
    EveryRunFollows(other, t);
  }

  /** The rest of a commit, if no other thread comes between. */
  function FinishCommit(s: State, t: ThreadId): State
    requires s.PcOf(t).Committing?
    decreases |s.PcOf(t).rest|
  {
    if s.PcOf(t).rest == [] then Do(s, EndCommit(t)) else FinishCommit(Do(s, CommitOne(t)), t)
  }

  lemma {:induction false} FinishedCommit(s: State, t: ThreadId)
    requires s.PcOf(t).Committing?
    ensures FinishCommit(s, t).shared
         == s.shared.Close(t).(handled := s.shared.handled + Deliveries(t, s.PcOf(t).rest))
    decreases |s.PcOf(t).rest|
  {
    var rest := s.PcOf(t).rest;
    if rest == [] {
      assert s.shared.handled + Deliveries(t, rest) == s.shared.handled;
    } else {
      FinishedCommit(Do(s, CommitOne(t)), t);
      assert Deliveries(t, rest) == [Delivery(t, rest[0])] + Deliveries(t, rest[1..]);
      assert s.shared.handled + [Delivery(t, rest[0])] + Deliveries(t, rest[1..])
          == s.shared.handled + Deliveries(t, rest);
    }
  }

  /** `Commit` is its steps with no other thread between them. */
  lemma CommitIsItsSteps(s: State, t: ThreadId)
    requires CanDo(s, BeginCommit(t))
    ensures FinishCommit(Do(s, BeginCommit(t)), t).shared
         == s.shared.Close(t).(handled := s.shared.handled + Deliveries(t, s.shared.Pending(t)))
  {
    FinishedCommit(Do(s, BeginCommit(t)), t);
  }
}
