/**
 A form in a dialog: each `execute` shows the dialog and loops on SUBMIT until it is saved,
 hidden or shown anew. The store is shared by all of them. A loop runs to its next wait in one
 step; while it waits for `onSubmit` it takes no action.
 */
module Dialog {
  import opened Strings
  import FormTree
  import V = Validation

  /** The form behind the dialog: its merged error tree, and its state once reset to the given data. */
  datatype Form<!F, !D> = Form(report: F -> V.Report, reset: D -> F)

  datatype Outcome = Pending | Succeeded | Failed

  /** One call of `onSubmit`: the form it was called with, and how it ended. */
  datatype Call<F> = Call(form: F, outcome: Outcome)

  datatype Status = Waiting | Saving | Returned(ok: bool)

  datatype Task<F, D> = Task(data: D, calls: seq<Call<F>>, status: Status)

  datatype State<F, D> = State(
    form: F,
    allTouched: bool,
    data: Option<D>,
    error: Option<string>,
    visible: bool,
    submitting: bool,
    disabled: bool,
    tasks: seq<Task<F, D>>)

  datatype Event<F, D> =
    | Execute(data: D)
    | Edit(form: F)
    | Submit
    | Show(shown: D)
    | Hide
    | SetDisabled(disabled: bool)
    | SaveDone(task: nat)
    | SaveFail(task: nat, error: string)

  const DEFAULT_ERROR := "submit failed"

  function Initial<F, D>(form: F): State<F, D> {
    State(form, false, None, None, false, false, false, [])
  }

  function FirstInvalid<F, D>(f: Form<F, D>, form: F): Option<string> {
    V.First(V.Errors(f.report(form)))
  }

  predicate Live<F, D>(t: Task<F, D>) {
    t.status.Waiting? || t.status.Saving?
  }

  predicate AnyWaiting<F, D>(tasks: seq<Task<F, D>>) {
    exists i :: 0 <= i < |tasks| && tasks[i].status.Waiting?
  }

  /** SHOW or HIDE ends the loops that wait for an action. */
  function Interrupted<F, D>(tasks: seq<Task<F, D>>): (r: seq<Task<F, D>>)
    ensures |r| == |tasks|
    ensures forall i :: 0 <= i < |r| ==>
      r[i] == if tasks[i].status.Waiting? then tasks[i].(status := Returned(false)) else tasks[i]
  {
    seq(|tasks|, i requires 0 <= i < |tasks| =>
      if tasks[i].status.Waiting? then tasks[i].(status := Returned(false)) else tasks[i])
  }

  /** SUBMIT of a form without errors calls `onSubmit` in the loops that wait for an action. */
  function Submitted<F, D>(tasks: seq<Task<F, D>>, form: F): (r: seq<Task<F, D>>)
    ensures |r| == |tasks|
    ensures forall i :: 0 <= i < |r| ==>
      r[i] == if tasks[i].status.Waiting? then Called(tasks[i], form) else tasks[i]
  {
    seq(|tasks|, i requires 0 <= i < |tasks| =>
      if tasks[i].status.Waiting? then Called(tasks[i], form) else tasks[i])
  }

  function Called<F, D>(t: Task<F, D>, form: F): Task<F, D> {
    Task(t.data, t.calls + [Call(form, Pending)], Saving)
  }

  /** The last call of a saving loop settles. */
  function Settled<F, D>(t: Task<F, D>, outcome: Outcome, status: Status): Task<F, D>
    requires t.calls != []
  {
    Task(t.data, t.calls[|t.calls| - 1 := Call(t.calls[|t.calls| - 1].form, outcome)], status)
  }

  predicate Enabled<F, D>(s: State<F, D>, e: Event<F, D>) {
    e.SaveDone? || e.SaveFail? ==>
      e.task < |s.tasks| && s.tasks[e.task].status.Saving? && s.tasks[e.task].calls != []
  }

  function Step<F, D>(f: Form<F, D>, s: State<F, D>, e: Event<F, D>): State<F, D>
    requires Enabled(s, e)
  {
    match e
    case Execute(d) =>
      s.(form := f.reset(d), allTouched := false, data := Some(d), visible := true, disabled := false,
         tasks := Interrupted(s.tasks) + [Task(d, [], Waiting)])
    case Edit(form) => s.(form := form)
    case Submit =>
      var taken := s.(submitting := true, error := None);
      if !AnyWaiting(s.tasks) then taken
      else if FirstInvalid(f, s.form).Some? then
        taken.(allTouched := true, submitting := false, error := FirstInvalid(f, s.form))
      else taken.(tasks := Submitted(s.tasks, s.form))
    case Show(d) => s.(data := Some(d), visible := true, disabled := false, tasks := Interrupted(s.tasks))
    case Hide => s.(visible := false, tasks := Interrupted(s.tasks))
    case SetDisabled(disabled) => s.(disabled := disabled)
    case SaveDone(i) =>
      s.(submitting := false, visible := false,
         tasks := Interrupted(s.tasks)[i := Settled(s.tasks[i], Succeeded, Returned(true))])
    case SaveFail(i, error) =>
      s.(submitting := false, error := Some(if error == "" then DEFAULT_ERROR else error),
         tasks := s.tasks[i := Settled(s.tasks[i], Failed, Waiting)])
  }

  predicate Legal<F, D>(f: Form<F, D>, s: State<F, D>, events: seq<Event<F, D>>)
    decreases |events|
  {
    events == [] || (Enabled(s, events[0]) && Legal(f, Step(f, s, events[0]), events[1..]))
  }

  function Run<F, D>(f: Form<F, D>, s: State<F, D>, events: seq<Event<F, D>>): State<F, D>
    requires Legal(f, s, events)
    decreases |events|
  {
    if events == [] then s else Run(f, Step(f, s, events[0]), events[1..])
  }

  // ---------------------------------------------------------------- only valid forms are submitted

  function Expected(status: Status): Outcome {
    if status.Saving? then Pending else if status == Returned(true) then Succeeded else Failed
  }

  /**
   Every form `onSubmit` got had no error; all calls but the last failed; the last one is
   pending while the loop saves, succeeded if the loop returned true, and failed otherwise.
   */
  predicate Sound<F, D>(f: Form<F, D>, t: Task<F, D>) {
    var n := |t.calls|;
    (forall i :: 0 <= i < n ==> FirstInvalid(f, t.calls[i].form).None?) &&
    (forall i :: 0 <= i < n - 1 ==> t.calls[i].outcome.Failed?) &&
    (t.status.Saving? || t.status == Returned(true) ==> n > 0) &&
    (n > 0 ==> t.calls[n - 1].outcome == Expected(t.status))
  }

  ghost predicate Inv<F, D>(f: Form<F, D>, s: State<F, D>) {
    forall i :: 0 <= i < |s.tasks| ==> Sound(f, s.tasks[i])
  }

  lemma InterruptedSound<F, D>(f: Form<F, D>, t: Task<F, D>)
    requires Sound(f, t) && t.status.Waiting?
    ensures Sound(f, t.(status := Returned(false)))
  {
  }

  lemma SubmittedSound<F, D>(f: Form<F, D>, t: Task<F, D>, form: F)
    requires Sound(f, t) && t.status.Waiting? && FirstInvalid(f, form).None?
    ensures Sound(f, Task(t.data, t.calls + [Call(form, Pending)], Saving))
  {
  }

  lemma SettledSound<F, D>(f: Form<F, D>, t: Task<F, D>)
    requires Sound(f, t) && t.status.Saving?
    ensures t.calls != [] && Sound(f, Settled(t, Succeeded, Returned(true))) && Sound(f, Settled(t, Failed, Waiting))
  {
  }

  lemma StepKeepsInv<F, D>(f: Form<F, D>, s: State<F, D>, e: Event<F, D>)
    requires Inv(f, s) && Enabled(s, e)
    ensures Inv(f, Step(f, s, e))
  {
    hide Sound, FirstInvalid, Settled;
    if e.SaveDone? || e.SaveFail? {
      SettledSound(f, s.tasks[e.task]);
    }
    if e.Execute? {
      NewSound(f, e.data);
    }
    forall i | 0 <= i < |s.tasks| && s.tasks[i].status.Waiting?
      ensures Sound(f, s.tasks[i].(status := Returned(false)))
      ensures FirstInvalid(f, s.form).None? ==>
        Sound(f, Task(s.tasks[i].data, s.tasks[i].calls + [Call(s.form, Pending)], Saving))
    {
      InterruptedSound(f, s.tasks[i]);
      if FirstInvalid(f, s.form).None? {
        SubmittedSound(f, s.tasks[i], s.form);
      }
    }
  }

  lemma NewSound<F, D>(f: Form<F, D>, data: D)
    ensures Sound(f, Task(data, [], Waiting))
  {
  }

  /**
   In every run, however executions, edits, actions and saves interleave: `onSubmit` is called
   only with a form without errors, and an execution returns true exactly when its last call
   succeeded.
   */
  lemma {:induction false} RunKeepsInv<F, D>(f: Form<F, D>, s: State<F, D>, events: seq<Event<F, D>>)
    requires Inv(f, s) && Legal(f, s, events)
    ensures Inv(f, Run(f, s, events))
    decreases |events|
  {
    hide Inv, Step, Enabled;
    if events != [] {
      StepKeepsInv(f, s, events[0]);
      RunKeepsInv(f, Step(f, s, events[0]), events[1..]);
    }
  }

  lemma {:induction false} RunSubmitsOnlyValid<F, D>(f: Form<F, D>, form: F, events: seq<Event<F, D>>, i: nat, j: nat)
    requires Legal(f, Initial(form), events)
    requires var tasks := Run(f, Initial(form), events).tasks; i < |tasks| && j < |tasks[i].calls|
    ensures var t := Run(f, Initial(form), events).tasks[i];
      V.Errors(f.report(t.calls[j].form)) == [] &&
      (t.calls[j].outcome.Succeeded? <==> t.status == Returned(true) && j == |t.calls| - 1)
  {
    hide Run, Legal;
    assert Inv(f, Initial(form));
    RunKeepsInv(f, Initial(form), events);
    assert Sound(f, Run(f, Initial(form), events).tasks[i]);
  }

  /** A refused SUBMIT shows every error and the first one, and leaves the form and the loops as they are. */
  lemma RefusedSubmit<F, D>(f: Form<F, D>, s: State<F, D>)
    requires AnyWaiting(s.tasks)
    ensures var t := Step(f, s, Submit);
      (V.Errors(f.report(s.form)) != [] <==> t.tasks == s.tasks) &&
      (V.Errors(f.report(s.form)) != [] ==>
        t.error == Some(V.Errors(f.report(s.form))[0]) && t.allTouched && !t.submitting &&
        t.form == s.form && t.visible == s.visible)
  {
  }

  /**
   Submitted values are valid values: where the error tree is what the combined validators report,
   every leaf validator below the root accepted what `onSubmit` was called with.
   */
  lemma {:induction false} SubmittedValuesAreAccepted<F, D>(f: Form<F, D>, form: F, events: seq<Event<F, D>>,
                                                            i: nat, j: nat,
                                                            rule: V.Rule, values: FormTree.Js)
    requires Legal(f, Initial(form), events)
    requires var tasks := Run(f, Initial(form), events).tasks; i < |tasks| && j < |tasks[i].calls|
    requires V.WellFormed(rule)
    requires V.Combine(rule, values) == Some(f.report(Run(f, Initial(form), events).tasks[i].calls[j].form))
    ensures forall p :: p != [] && V.LeafAt(rule, values, p).Some? ==> V.Errors(V.VerdictAt(rule, values, p)) == []
  {
    hide Run, Legal, V.Combine, V.WellFormed, V.LeafAt, V.Errors;
    RunSubmitsOnlyValid(f, form, events, i, j);
    V.ValidIff(rule, values);
  }

  // ---------------------------------------------------------------- the dialog on the screen

  predicate AnyLive<F, D>(tasks: seq<Task<F, D>>) {
    exists i :: 0 <= i < |tasks| && Live(tasks[i])
  }

  lemma StepKeepsLoop<F, D>(f: Form<F, D>, s: State<F, D>, e: Event<F, D>)
    requires s.visible ==> AnyLive(s.tasks)
    requires Enabled(s, e) && !e.Show?
    ensures var t := Step(f, s, e); t.visible ==> AnyLive(t.tasks)
  {
    hide FirstInvalid;
    var t := Step(f, s, e);
    if e.Execute? {
      assert Live(t.tasks[|s.tasks|]);
    } else if t.visible {
      var i :| 0 <= i < |s.tasks| && Live(s.tasks[i]);
      assert Live(t.tasks[i]);
    }
  }

  /** Unless someone else shows it, a dialog on the screen always has a loop that will answer it. */
  lemma {:induction false} VisibleHasLoop<F, D>(f: Form<F, D>, s: State<F, D>, events: seq<Event<F, D>>)
    requires s.visible ==> AnyLive(s.tasks)
    requires Legal(f, s, events) && forall i :: 0 <= i < |events| ==> !events[i].Show?
    ensures var t := Run(f, s, events); t.visible ==> AnyLive(t.tasks)
    decreases |events|
  {
    hide Step, Enabled, AnyLive;
    if events != [] {
      StepKeepsLoop(f, s, events[0]);
      VisibleHasLoop(f, Step(f, s, events[0]), events[1..]);
    }
  }

  predicate Shows<F, D>(e: Event<F, D>) {
    e.Execute? || e.Show?
  }

  predicate Hides<F, D>(e: Event<F, D>) {
    e.Hide? || e.SaveDone?
  }

  ghost predicate UnhiddenFrom<F, D>(events: seq<Event<F, D>>, k: nat) {
    forall j :: k <= j < |events| ==> !Hides(events[j])
  }

  /** Something shows the dialog, or it is visible from the start, and nothing hides it after that. */
  ghost predicate ShownLast<F, D>(visible: bool, events: seq<Event<F, D>>) {
    (visible && UnhiddenFrom(events, 0)) ||
    exists k :: 0 <= k < |events| && Shows(events[k]) && UnhiddenFrom(events, k + 1)
  }

  lemma UnhiddenStep<F, D>(events: seq<Event<F, D>>, k: nat)
    requires events != []
    ensures UnhiddenFrom(events, k + 1) <==> UnhiddenFrom(events[1..], k)
    ensures UnhiddenFrom(events, 0) <==> !Hides(events[0]) && UnhiddenFrom(events[1..], 0)
  {
    forall j | 0 < j < |events|
      ensures events[j] == events[1..][j - 1]
    {
    }
    assert forall j :: 0 <= j < |events| - 1 ==> events[1..][j] == events[j + 1];
  }

  lemma ShownLastStep<F, D>(visible: bool, events: seq<Event<F, D>>)
    requires events != []
    ensures ShownLast(visible, events) <==>
      ShownLast(Shows(events[0]) || (visible && !Hides(events[0])), events[1..])
  {
    hide UnhiddenFrom, Shows, Hides;
    UnhiddenStep(events, 0);
    if k :| 0 < k < |events| && Shows(events[k]) && UnhiddenFrom(events, k + 1) {
      UnhiddenStep(events, k);
      assert Shows(events[1..][k - 1]);
    }
    if k :| 0 <= k < |events| - 1 && Shows(events[1..][k]) && UnhiddenFrom(events[1..], k + 1) {
      UnhiddenStep(events, k + 1);
      assert Shows(events[k + 1]);
    }
  }

  /** A dialog is on the screen exactly when, of all that showed or hid it, the last showed it. */
  lemma {:induction false} VisibleIffShownLast<F, D>(f: Form<F, D>, s: State<F, D>, events: seq<Event<F, D>>)
    requires Legal(f, s, events)
    ensures Run(f, s, events).visible <==> ShownLast(s.visible, events)
    decreases |events|
  {
    hide Enabled, ShownLast, FirstInvalid;
    if events == [] {
      NothingShows<F, D>(s.visible);
    } else {
      ShownLastStep(s.visible, events);
      VisibleIffShownLast(f, Step(f, s, events[0]), events[1..]);
    }
  }

  lemma NothingShows<F, D>(visible: bool)
    ensures ShownLast<F, D>(visible, []) == visible
  {
  }

  /** The event settles the loop's save. */
  predicate Settles<F, D>(e: Event<F, D>, i: nat) {
    (e.SaveDone? || e.SaveFail?) && e.task == i
  }

  lemma StillSaving<F, D>(f: Form<F, D>, s: State<F, D>, e: Event<F, D>, i: nat)
    requires Enabled(s, e) && !Settles(e, i) && i < |s.tasks| && s.tasks[i].status.Saving?
    ensures var t := Step(f, s, e); i < |t.tasks| && t.tasks[i] == s.tasks[i]
  {
  }

  lemma {:induction false} SavesThrough<F, D>(f: Form<F, D>, s: State<F, D>, events: seq<Event<F, D>>, i: nat)
    requires i < |s.tasks| && s.tasks[i].status.Saving?
    requires Legal(f, s, events) && forall j :: 0 <= j < |events| ==> !Settles(events[j], i)
    ensures var t := Run(f, s, events); i < |t.tasks| && t.tasks[i] == s.tasks[i]
    decreases |events|
  {
    hide Step, Enabled;
    if events != [] {
      StillSaving(f, s, events[0], i);
      SavesThrough(f, Step(f, s, events[0]), events[1..], i);
    }
  }

  /**
   A loop whose save fails waits again, whatever came in between. It waits in a dialog that is on
   the screen exactly when nothing hid the dialog, neither HIDE nor another loop's success, since
   it was last shown.
   */
  lemma {:induction false} FailedSaveWaits<F, D>(f: Form<F, D>, s: State<F, D>, events: seq<Event<F, D>>, i: nat,
                                                 error: string)
    requires Inv(f, s) && i < |s.tasks| && s.tasks[i].status.Saving?
    requires Legal(f, s, events) && forall j :: 0 <= j < |events| ==> !Settles(events[j], i)
    ensures Enabled(Run(f, s, events), SaveFail(i, error))
    ensures var t := Run(f, s, events);
      var u := Step(f, t, SaveFail(i, error));
      u.tasks[i].status.Waiting? && u.tasks[i].data == s.tasks[i].data && u.form == t.form &&
      u.error.Some? && u.error.value != "" && (u.visible <==> ShownLast(s.visible, events))
  {
    hide FirstInvalid, Run, Legal, ShownLast;
    assert Sound(f, s.tasks[i]);
    SavesThrough(f, s, events, i);
    VisibleIffShownLast(f, s, events);
  }

  // ---------------------------------------------------------------- one save at a time

  ghost predicate OneLive<F, D>(tasks: seq<Task<F, D>>) {
    forall i, j :: 0 <= i < j < |tasks| ==> !(Live(tasks[i]) && Live(tasks[j]))
  }

  predicate AnySaving<F, D>(tasks: seq<Task<F, D>>) {
    exists i :: 0 <= i < |tasks| && tasks[i].status.Saving?
  }

  /** No new execution while one saves, and SUBMIT only from a dialog some loop listens to. */
  predicate Orderly<F, D>(s: State<F, D>, e: Event<F, D>) {
    (e.Execute? ==> !AnySaving(s.tasks)) && (e.Submit? ==> AnyWaiting(s.tasks) || AnySaving(s.tasks))
  }

  predicate OrderlyRun<F, D>(f: Form<F, D>, s: State<F, D>, events: seq<Event<F, D>>)
    requires Legal(f, s, events)
    decreases |events|
  {
    events == [] || (Orderly(s, events[0]) && OrderlyRun(f, Step(f, s, events[0]), events[1..]))
  }

  ghost predicate Calm<F, D>(s: State<F, D>) {
    OneLive(s.tasks) && (s.submitting <==> AnySaving(s.tasks))
  }

  lemma OrderlyKeepsOneLive<F, D>(f: Form<F, D>, s: State<F, D>, e: Event<F, D>)
    requires OneLive(s.tasks) && Enabled(s, e) && Orderly(s, e)
    ensures OneLive(Step(f, s, e).tasks)
  {
    hide FirstInvalid;
    if e.Execute? {
      assert forall i :: 0 <= i < |s.tasks| ==> !s.tasks[i].status.Saving?;
    }
  }

  lemma SavingStays<F, D>(f: Form<F, D>, s: State<F, D>, e: Event<F, D>)
    requires Enabled(s, e) && !e.SaveDone? && !e.SaveFail? && AnySaving(s.tasks)
    ensures AnySaving(Step(f, s, e).tasks)
  {
    hide FirstInvalid;
    var i :| 0 <= i < |s.tasks| && s.tasks[i].status.Saving?;
    StillSaving(f, s, e, i);
  }

  lemma SavingEnds<F, D>(f: Form<F, D>, s: State<F, D>, e: Event<F, D>)
    requires Enabled(s, e) && (e.SaveDone? || e.SaveFail?) && OneLive(s.tasks)
    ensures !AnySaving(Step(f, s, e).tasks)
  {
    hide FirstInvalid;
    assert forall i :: 0 <= i < |s.tasks| && i != e.task ==> !s.tasks[i].status.Saving?;
  }

  lemma OrderlyKeepsSubmitting<F, D>(f: Form<F, D>, s: State<F, D>, e: Event<F, D>)
    requires Calm(s) && Enabled(s, e) && Orderly(s, e)
    ensures var t := Step(f, s, e); t.submitting <==> AnySaving(t.tasks)
  {
    hide FirstInvalid, OneLive;
    var t := Step(f, s, e);
    if e.SaveDone? || e.SaveFail? {
      SavingEnds(f, s, e);
    } else if AnySaving(s.tasks) {
      SavingStays(f, s, e);
      if e.Submit? {
        NoneWaits(s);
      }
    } else if e.Submit? {
      var i :| 0 <= i < |s.tasks| && s.tasks[i].status.Waiting?;
      assert FirstInvalid(f, s.form).None? ==> t.tasks[i].status.Saving?;
    }
  }

  lemma NoneWaits<F, D>(s: State<F, D>)
    requires OneLive(s.tasks) && AnySaving(s.tasks)
    ensures !AnyWaiting(s.tasks)
  {
    var i :| 0 <= i < |s.tasks| && s.tasks[i].status.Saving?;
    assert forall j :: 0 <= j < |s.tasks| && j != i ==> !Live(s.tasks[j]);
  }

  /** Only an execution during a save makes a second loop, and only an unheard SUBMIT loading without a save. */
  lemma DisorderShows<F, D>(f: Form<F, D>, s: State<F, D>, e: Event<F, D>)
    requires Calm(s) && Enabled(s, e) && !Orderly(s, e)
    ensures !Calm(Step(f, s, e))
  {
    hide FirstInvalid;
    var t := Step(f, s, e);
    if e.Execute? {
      var i :| 0 <= i < |s.tasks| && s.tasks[i].status.Saving?;
      assert Live(t.tasks[i]) && Live(t.tasks[|s.tasks|]);
    }
  }

  /** One loop at most is live, and the dialog shows as loading exactly while it saves, all along the run. */
  ghost predicate AlwaysCalm<F, D>(f: Form<F, D>, s: State<F, D>, events: seq<Event<F, D>>)
    requires Legal(f, s, events)
    decreases |events|
  {
    Calm(s) && (events == [] || AlwaysCalm(f, Step(f, s, events[0]), events[1..]))
  }

  /** A run is calm all along exactly when it is orderly. */
  lemma {:induction false} OrderlyRunIffCalm<F, D>(f: Form<F, D>, s: State<F, D>, events: seq<Event<F, D>>)
    requires Calm(s) && Legal(f, s, events)
    ensures OrderlyRun(f, s, events) <==> AlwaysCalm(f, s, events)
    decreases |events|
  {
    hide Step, Enabled, Calm, Orderly;
    if events != [] {
      OrderlyStepIffCalm(f, s, events[0]);
      if Orderly(s, events[0]) {
        OrderlyRunIffCalm(f, Step(f, s, events[0]), events[1..]);
      } else {
        StartsCalm(f, Step(f, s, events[0]), events[1..]);
      }
    }
  }

  /** A step from a calm state keeps it calm exactly when it is orderly. */
  lemma OrderlyStepIffCalm<F, D>(f: Form<F, D>, s: State<F, D>, e: Event<F, D>)
    requires Calm(s) && Enabled(s, e)
    ensures Orderly(s, e) <==> Calm(Step(f, s, e))
  {
    hide Step, OneLive, AnySaving, Orderly;
    if Orderly(s, e) {
      OrderlyKeepsOneLive(f, s, e);
      OrderlyKeepsSubmitting(f, s, e);
    } else {
      DisorderShows(f, s, e);
    }
  }

  lemma {:induction false} StartsCalm<F, D>(f: Form<F, D>, s: State<F, D>, events: seq<Event<F, D>>)
    requires Legal(f, s, events) && !Calm(s)
    ensures !AlwaysCalm(f, s, events)
  {
  }

  /**
   Without that order a form is saved twice at once: a loop that is saving misses the SHOW of a
   second execution, and once its save fails both loops take the next SUBMIT.
   */
  lemma {:induction false} OverlapSavesTwice<F, D>(f: Form<F, D>, form: F, first: D, second: D)
    requires FirstInvalid(f, f.reset(first)).None? && FirstInvalid(f, f.reset(second)).None?
    ensures var events := [Execute(first), Submit, Execute(second), SaveFail(0, ""), Submit];
      Legal(f, Initial(form), events) &&
      var tasks := Run(f, Initial(form), events).tasks;
      |tasks| == 2 && |tasks[0].calls| == 2 && |tasks[1].calls| == 1 &&
      tasks[0].status.Saving? && tasks[1].status.Saving? &&
      tasks[0].data == first && tasks[1].data == second &&
      tasks[0].calls[1].form == tasks[1].calls[0].form == f.reset(second)
  {
    hide FirstInvalid;
    var s0 := Initial<F, D>(form);
    var s1 := Step(f, s0, Execute(first));
    assert s1.tasks == [Task(first, [], Waiting)];
    var s2 := Step(f, s1, Submit);
    assert s1.tasks[0].status.Waiting?;
    assert [] + [Call(f.reset(first), Pending)] == [Call(f.reset(first), Pending)];
    assert s2.tasks == [Task(first, [Call(f.reset(first), Pending)], Saving)];
    var s3 := Step(f, s2, Execute(second));
    assert s3.tasks == s2.tasks + [Task(second, [], Waiting)];
    var s4 := Step(f, s3, SaveFail(0, ""));
    assert s4.tasks[1].status.Waiting?;
    var s5 := Step(f, s4, Submit);
    assert |s5.tasks| == 2 && |s5.tasks[0].calls| == 2 && |s5.tasks[1].calls| == 1;
    RunOne(f, s4, Submit, []);
    RunOne(f, s3, SaveFail(0, ""), [Submit]);
    RunOne(f, s2, Execute(second), [SaveFail(0, ""), Submit]);
    RunOne(f, s1, Submit, [Execute(second), SaveFail(0, ""), Submit]);
    RunOne(f, s0, Execute(first), [Submit, Execute(second), SaveFail(0, ""), Submit]);
  }

  lemma {:induction false} RunOne<F, D>(f: Form<F, D>, s: State<F, D>, e: Event<F, D>, rest: seq<Event<F, D>>)
    requires Enabled(s, e) && Legal(f, Step(f, s, e), rest)
    ensures Legal(f, s, [e] + rest)
    ensures Run(f, s, [e] + rest) == Run(f, Step(f, s, e), rest)
  {
  }

  // ---------------------------------------------------------------- what the store and the loops were told

  /** The form as it was last edited, or reset by an execution since. */
  function LastForm<F, D>(f: Form<F, D>, form: F, events: seq<Event<F, D>>): F {
    if events == [] then form
    else
      var last := events[|events| - 1];
      if last.Edit? then last.form
      else if last.Execute? then f.reset(last.data)
      else LastForm(f, form, events[..|events| - 1])
  }

  function LastData<F, D>(events: seq<Event<F, D>>): Option<D> {
    if events == [] then None
    else
      var last := events[|events| - 1];
      if last.Execute? then Some(last.data)
      else if last.Show? then Some(last.shown)
      else LastData(events[..|events| - 1])
  }

  /** Showing the dialog enables it again. */
  function LastDisabled<F, D>(events: seq<Event<F, D>>): bool {
    if events == [] then false
    else
      var last := events[|events| - 1];
      if last.SetDisabled? then last.disabled else !Shows(last) && LastDisabled(events[..|events| - 1])
  }

  /** The data of the executions, in order. */
  function Executed<F, D>(events: seq<Event<F, D>>): seq<D> {
    if events == [] then []
    else
      var last := events[|events| - 1];
      Executed(events[..|events| - 1]) + if last.Execute? then [last.data] else []
  }

  lemma {:induction false} LegalSnoc<F, D>(f: Form<F, D>, s: State<F, D>, events: seq<Event<F, D>>)
    requires events != [] && Legal(f, s, events)
    ensures var front, last := events[..|events| - 1], events[|events| - 1];
      Legal(f, s, front) && Enabled(Run(f, s, front), last) && Run(f, s, events) == Step(f, Run(f, s, front), last)
    decreases |events|
  {
    hide Step, Enabled;
    var front := events[..|events| - 1];
    if |events| > 1 {
      assert events[1..][..|events| - 2] == front[1..];
      LegalSnoc(f, Step(f, s, events[0]), events[1..]);
    }
  }

  ghost predicate AsTold<F, D>(f: Form<F, D>, form: F, s: State<F, D>, events: seq<Event<F, D>>) {
    s.form == LastForm(f, form, events) && s.data == LastData(events) && s.disabled == LastDisabled(events) &&
    |s.tasks| == |Executed(events)| && forall i :: 0 <= i < |s.tasks| ==> s.tasks[i].data == Executed(events)[i]
  }

  lemma StepAsTold<F, D>(f: Form<F, D>, form: F, s: State<F, D>, events: seq<Event<F, D>>)
    requires events != [] && AsTold(f, form, s, events[..|events| - 1]) && Enabled(s, events[|events| - 1])
    ensures AsTold(f, form, Step(f, s, events[|events| - 1]), events)
  {
    hide FirstInvalid, AnyWaiting, Step, LastForm, LastData, LastDisabled, Executed;
    HistoryStep(f, form, events);
    StepStores(f, s, events[|events| - 1]);
    StepKeepsData(f, s, events[|events| - 1]);
  }

  lemma HistoryStep<F, D>(f: Form<F, D>, form: F, events: seq<Event<F, D>>)
    requires events != []
    ensures var front, last := events[..|events| - 1], events[|events| - 1];
      LastForm(f, form, events) ==
        (if last.Edit? then last.form else if last.Execute? then f.reset(last.data) else LastForm(f, form, front)) &&
      LastData(events) ==
        (if last.Execute? then Some(last.data) else if last.Show? then Some(last.shown) else LastData(front)) &&
      LastDisabled(events) == (if last.SetDisabled? then last.disabled else !Shows(last) && LastDisabled(front)) &&
      Executed(events) == Executed(front) + if last.Execute? then [last.data] else []
  {
  }

  lemma StepStores<F, D>(f: Form<F, D>, s: State<F, D>, e: Event<F, D>)
    requires Enabled(s, e)
    ensures var t := Step(f, s, e);
      t.form == (if e.Edit? then e.form else if e.Execute? then f.reset(e.data) else s.form) &&
      t.data == (if e.Execute? then Some(e.data) else if e.Show? then Some(e.shown) else s.data) &&
      t.disabled == if e.SetDisabled? then e.disabled else !Shows(e) && s.disabled
  {
    hide FirstInvalid, AnyWaiting;
  }

  lemma StepKeepsData<F, D>(f: Form<F, D>, s: State<F, D>, e: Event<F, D>)
    requires Enabled(s, e)
    ensures var t := Step(f, s, e);
      |t.tasks| == |s.tasks| + (if e.Execute? then 1 else 0) &&
      (forall i :: 0 <= i < |s.tasks| ==> t.tasks[i].data == s.tasks[i].data) &&
      (e.Execute? ==> t.tasks[|s.tasks|].data == e.data)
  {
    hide FirstInvalid, AnyWaiting;
  }

  /**
   Over every run: the form is the one last edited or reset, the data the last shown, and there is
   one loop for each execution, with its data.
   */
  lemma {:induction false} RunAsTold<F, D>(f: Form<F, D>, form: F, events: seq<Event<F, D>>)
    requires Legal(f, Initial(form), events)
    ensures AsTold(f, form, Run(f, Initial(form), events), events)
    decreases |events|
  {
    hide AsTold, Legal, Run, Step, Enabled;
    if events == [] {
      NothingTold(f, form);
    } else {
      LegalSnoc(f, Initial(form), events);
      RunAsTold(f, form, events[..|events| - 1]);
      StepAsTold(f, form, Run(f, Initial(form), events[..|events| - 1]), events);
    }
  }

  lemma {:induction false} NothingTold<F, D>(f: Form<F, D>, form: F)
    ensures Legal(f, Initial(form), []) && AsTold(f, form, Run(f, Initial(form), []), [])
  {
  }

  /** A call begins exactly when SUBMIT finds the loop waiting and the form without errors; it gets that form. */
  lemma CallsBegin<F, D>(f: Form<F, D>, s: State<F, D>, e: Event<F, D>, i: nat)
    requires Enabled(s, e) && i < |s.tasks|
    ensures var t := Step(f, s, e);
      i < |t.tasks| &&
      if e.Submit? && s.tasks[i].status.Waiting? && V.Errors(f.report(s.form)) == [] then
        t.tasks[i] == Task(s.tasks[i].data, s.tasks[i].calls + [Call(s.form, Pending)], Saving) &&
        t.submitting && t.error.None?
      else
        |t.tasks[i].calls| == |s.tasks[i].calls| &&
        forall j :: 0 <= j < |s.tasks[i].calls| ==> t.tasks[i].calls[j].form == s.tasks[i].calls[j].form
  {
    if s.tasks[i].status.Waiting? {
      assert AnyWaiting(s.tasks);
    }
  }

  /** The form was submitted: it is the one at some SUBMIT of the run. */
  ghost predicate WasSubmitted<F, D>(f: Form<F, D>, form: F, events: seq<Event<F, D>>, submitted: F) {
    exists n :: 0 <= n < |events| && events[n].Submit? && submitted == LastForm(f, form, events[..n])
  }

  lemma SubmittedBefore<F, D>(f: Form<F, D>, form: F, events: seq<Event<F, D>>, submitted: F)
    requires events != [] && WasSubmitted(f, form, events[..|events| - 1], submitted)
    ensures WasSubmitted(f, form, events, submitted)
  {
    hide LastForm;
    var front := events[..|events| - 1];
    var n :| 0 <= n < |front| && front[n].Submit? && submitted == LastForm(f, form, front[..n]);
    assert front[..n] == events[..n];
  }

  /** Over every run `onSubmit` gets the form as the user had left it when a SUBMIT came. */
  lemma {:induction false} RunSubmitsCurrentForm<F, D>(f: Form<F, D>, form: F, events: seq<Event<F, D>>, i: nat, j: nat)
    requires Legal(f, Initial(form), events)
    requires var tasks := Run(f, Initial(form), events).tasks; i < |tasks| && j < |tasks[i].calls|
    ensures WasSubmitted(f, form, events, Run(f, Initial(form), events).tasks[i].calls[j].form)
    decreases |events|
  {
    hide Legal, Run, Step, Enabled, LastForm, WasSubmitted;
    if events == [] {
      NoTasks(f, form);
    } else {
      var front, last := events[..|events| - 1], events[|events| - 1];
      LegalSnoc(f, Initial(form), events);
      RunAsTold(f, form, front);
      var s := Run(f, Initial(form), front);
      if i < |s.tasks| {
        CallsBegin(f, s, last, i);
        if j < |s.tasks[i].calls| {
          RunSubmitsCurrentForm(f, form, front, i, j);
          SubmittedBefore(f, form, events, s.tasks[i].calls[j].form);
        } else {
          SubmittedNow(f, form, events);
        }
      } else {
        NewLoopHasNoCalls(f, s, last, i);
      }
    }
  }

  lemma {:induction false} NoTasks<F, D>(f: Form<F, D>, form: F)
    ensures Legal(f, Initial(form), []) && Run(f, Initial(form), []).tasks == []
  {
  }

  lemma SubmittedNow<F, D>(f: Form<F, D>, form: F, events: seq<Event<F, D>>)
    requires events != [] && events[|events| - 1].Submit?
    ensures WasSubmitted(f, form, events, LastForm(f, form, events[..|events| - 1]))
  {
    hide LastForm;
  }

  lemma NewLoopHasNoCalls<F, D>(f: Form<F, D>, s: State<F, D>, e: Event<F, D>, i: nat)
    requires Enabled(s, e) && |s.tasks| <= i < |Step(f, s, e).tasks|
    ensures Step(f, s, e).tasks[i].calls == []
  {
  }

  /** SHOW, HIDE, a new execution and a success each end the loops that wait, with false; SUBMIT tells what it found. */
  lemma StepTells<F, D>(f: Form<F, D>, s: State<F, D>, e: Event<F, D>)
    requires Enabled(s, e)
    ensures var t := Step(f, s, e);
      Shows(e) || Hides(e) ==>
        forall i :: 0 <= i < |s.tasks| && s.tasks[i].status.Waiting? ==>
          i < |t.tasks| && t.tasks[i].status == Returned(false)
    ensures var t, errors := Step(f, s, e), V.Errors(f.report(s.form));
      var refused := e.Submit? && AnyWaiting(s.tasks) && errors != [];
      (t.allTouched <==> !e.Execute? && (s.allTouched || refused)) &&
      t.error ==
        (if refused then Some(errors[0])
         else if e.Submit? then None
         else if e.SaveFail? then Some(if e.error == "" then DEFAULT_ERROR else e.error)
         else s.error)
  {
  }
}
