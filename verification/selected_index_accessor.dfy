/** The selected-index value accessor: it normalises every value the form
    binder writes, keeps the latest one, and applies it to the view's
    `selectedIndex` only once the view has been initialised. */
module SelectedIndexAccessor {
  import opened Options
  import opened ModelValue

  /** The touched callback, identified by a token: the default no-op, or a
      function the binder registered. */
  datatype Callback = NoOp | Fn(id: nat)

  /** What the accessor has done to the view's `selectedIndex`: never assigned
      it, or assigned it a value (`None` is the undefined value it assigns
      when the view initialises before any write). */
  datatype ViewIndex = Untouched | Assigned(index: Option<int>)

  /** The accessor's fields together with the one view property it drives.
      `stored` is `_normalizedValue` (undefined until the first write) and
      `viewInitialized` starts out undefined, which reads as false. */
  datatype State = State(
    stored: Option<int>,
    viewInitialized: bool,
    view: ViewIndex,
    onTouched: Callback)

  /** The state right after construction. */
  function Init(): (s: State)
    ensures s.stored.None? && !s.viewInitialized
    ensures s.view.Untouched? && s.onTouched.NoOp?
  {
    State(None, false, Untouched, NoOp)
  }

  /** `writeValue(value)`: store the normalised value; write it through to the
      view only when the view has been initialised. Never fails. */
  function WriteValue(s: State, v: Value, parse: ParseInt): (r: State)
    ensures r.stored == Some(Normalize(v, parse))
    ensures r.viewInitialized == s.viewInitialized
    ensures s.viewInitialized ==> r.view == Assigned(Some(Normalize(v, parse)))
    ensures !s.viewInitialized ==> r.view == s.view
    ensures r.onTouched == s.onTouched
  {
    var n := Normalize(v, parse);
    var s' := s.(stored := Some(n));
    if s'.viewInitialized then s'.(view := Assigned(s'.stored)) else s'
  }

  /** `ngAfterViewInit()`: mark the view initialised and catch up by writing
      the stored value, whatever it is, to the view. */
  function AfterViewInit(s: State): (r: State)
    ensures r.viewInitialized
    ensures r.view == Assigned(s.stored)
    ensures r.stored == s.stored && r.onTouched == s.onTouched
  {
    s.(viewInitialized := true, view := Assigned(s.stored))
  }

  /** `registerOnTouched(fn)`: replace the touched callback and nothing else. */
  function RegisterOnTouched(s: State, fn: Callback): (r: State)
    ensures r.onTouched == fn
    ensures r.stored == s.stored && r.viewInitialized == s.viewInitialized && r.view == s.view
  {
    s.(onTouched := fn)
  }

  /** One call the binder or the view lifecycle makes on the accessor. */
  datatype Call = Write(value: Value) | ViewReady | SetOnTouched(fn: Callback)

  /** The effect of one call. */
  function Step(s: State, c: Call, parse: ParseInt): State
  {
    match c
    case Write(v) => WriteValue(s, v, parse)
    case ViewReady => AfterViewInit(s)
    case SetOnTouched(fn) => RegisterOnTouched(s, fn)
  }

  /** The effect of a sequence of calls, made in order. The flag is set after
      the run exactly when it was set before or the view-ready hook fired, so
      it never goes back to false. */
  function Run(s: State, calls: seq<Call>, parse: ParseInt): (r: State)
    ensures r.viewInitialized <==> s.viewInitialized || ViewReady in calls
    decreases |calls|
  {
    if calls == [] then s
    else
      var init := calls[..|calls| - 1];
      assert calls == init + [calls[|calls| - 1]];
      Step(Run(s, init, parse), calls[|calls| - 1], parse)
  }

  /** The value of the most recent `Write` among `calls`, if any. */
  function LastWrite(calls: seq<Call>): Option<Value>
    decreases |calls|
  {
    if calls == [] then None
    else if calls[|calls| - 1].Write? then Some(calls[|calls| - 1].value)
    else LastWrite(calls[..|calls| - 1])
  }

  /** The accessor's last assignment to `selectedIndex` mirrors its fields:
      none while the view is not initialised, the stored value once it is. */
  predicate Coherent(s: State) {
    s.view == (if s.viewInitialized then Assigned(s.stored) else Untouched)
  }

  /** Every call keeps the accessor's last assignment to `selectedIndex` coherent
      with its fields. */
  lemma StepPreservesCoherent(s: State, c: Call, parse: ParseInt)
    requires Coherent(s)
    ensures Coherent(Step(s, c, parse))
  {
  }

  /** Every reachable state is coherent: once the view is initialised, the
      value the accessor last assigned to `selectedIndex` is the stored
      normalised value, and before that the accessor has assigned nothing. */
  lemma {:induction false} RunPreservesCoherent(s: State, calls: seq<Call>, parse: ParseInt)
    requires Coherent(s)
    ensures Coherent(Run(s, calls, parse))
    decreases |calls|
  {
    if calls != [] {
      var init := calls[..|calls| - 1];
      RunPreservesCoherent(s, init, parse);
      StepPreservesCoherent(Run(s, init, parse), calls[|calls| - 1], parse);
    }
  }

  /** The stored value is the normalisation of the most recent write, or what
      was stored before the run when no write happened. */
  lemma {:induction false} StoredIsLatestWrite(s: State, calls: seq<Call>, parse: ParseInt)
    ensures Run(s, calls, parse).stored ==
      (match LastWrite(calls)
       case Some(v) => Some(Normalize(v, parse))
       case None => s.stored)
    decreases |calls|
  {
    if calls != [] {
      StoredIsLatestWrite(s, calls[..|calls| - 1], parse);
    }
  }

  /** Before the view is initialised, any run of writes and callback
      registrations leaves the view's `selectedIndex` as it was. */
  lemma {:induction false} DeferredWritesLeaveView(s: State, calls: seq<Call>, parse: ParseInt)
    requires !s.viewInitialized
    requires ViewReady !in calls
    ensures Run(s, calls, parse).view == s.view
    decreases |calls|
  {
    if calls != [] {
      var init := calls[..|calls| - 1];
      assert calls == init + [calls[|calls| - 1]];
      DeferredWritesLeaveView(s, init, parse);
    }
  }

  /** Latest value wins: when the view initialises after a run of calls from
      the initial state, it receives the normalisation of the last write made
      before it (undefined when there was none). */
  lemma CatchUpAppliesLatestWrite(calls: seq<Call>, parse: ParseInt)
    requires ViewReady !in calls
    ensures Run(Init(), calls + [ViewReady], parse).view ==
      Assigned(match LastWrite(calls)
               case Some(v) => Some(Normalize(v, parse))
               case None => None)
  {
    var all := calls + [ViewReady];
    assert all[..|all| - 1] == calls;
    StoredIsLatestWrite(Init(), calls, parse);
  }

  /** After the view is initialised, at every later point of a run the value
      the accessor last assigned to `selectedIndex` is the normalisation of
      the last write so far, or undefined when there has been no write. */
  lemma ReadyAssignsLatestWrite(calls: seq<Call>, parse: ParseInt)
    requires ViewReady in calls
    ensures Run(Init(), calls, parse).view ==
      Assigned(match LastWrite(calls)
               case Some(v) => Some(Normalize(v, parse))
               case None => None)
  {
    RunPreservesCoherent(Init(), calls, parse);
    StoredIsLatestWrite(Init(), calls, parse);
  }

  /** From the initial state, the accessor has touched the view exactly when
      the view-ready hook has fired. */
  lemma ViewTouchedIffReady(calls: seq<Call>, parse: ParseInt)
    ensures Run(Init(), calls, parse).view.Untouched? <==> ViewReady !in calls
  {
    RunPreservesCoherent(Init(), calls, parse);
  }

  /** Once set, the flag stays set whatever the binder or the view does next. */
  lemma InitializedStaysSet(s: State, calls: seq<Call>, parse: ParseInt)
    requires s.viewInitialized
    ensures Run(s, calls, parse).viewInitialized
  {
  }

  /** Repeating a call has no further effect: writing the same value twice,
      initialising twice, or registering the same callback twice leaves the
      same state as doing it once. */
  lemma StepIdempotent(s: State, c: Call, parse: ParseInt)
    ensures Step(Step(s, c, parse), c, parse) == Step(s, c, parse)
  {
  }

  /** A write and the view-ready hook may arrive in either order: both orders
      end in the same state, with the written value assigned to the view. */
  lemma WriteAndReadyCommute(s: State, v: Value, parse: ParseInt)
    ensures AfterViewInit(WriteValue(s, v, parse)) == WriteValue(AfterViewInit(s), v, parse)
    ensures AfterViewInit(WriteValue(s, v, parse)).view == Assigned(Some(Normalize(v, parse)))
  {
  }

  /** Examples: `writeValue(5)` before the view is ready, then the ready hook,
      assigns 5; a numeric write to a ready view assigns its rounding; blank
      values assign 0. */
  lemma ExampleRuns(parse: ParseInt, x: real)
    ensures Run(Init(), [Write(Num(5.0)), ViewReady], parse).view == Assigned(Some(5))
    ensures Run(Init(), [ViewReady, Write(Num(x))], parse).view == Assigned(Some(JsMath.Round(x)))
    ensures Run(Init(), [Write(Null), ViewReady], parse).view == Assigned(Some(0))
    ensures Run(Init(), [ViewReady, Write(Undefined)], parse).view == Assigned(Some(0))
  {
    NormalizeInteger(5, parse);
    NormalizeNumber(x, parse);
    var a := [Write(Num(5.0)), ViewReady];
    assert a[..1] == [Write(Num(5.0))] && a[..1][..0] == [];
    var b := [ViewReady, Write(Num(x))];
    assert b[..1] == [ViewReady] && b[..1][..0] == [];
    var c := [Write(Null), ViewReady];
    assert c[..1] == [Write(Null)] && c[..1][..0] == [];
    var d := [ViewReady, Write(Undefined)];
    assert d[..1] == [ViewReady] && d[..1][..0] == [];
  }
}
