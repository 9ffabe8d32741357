/** The Linux tray controller (installers/linux/tray/app_linux.go and internal/control/confirm.go):
    two locks, a render cache, and goroutines that interleave between lock holds. */
module Tray {
  import opened Common

  // ---------------------------------------------------------------- the shutdown confirmation

  /** Milliseconds. */
  const CONFIRM_WINDOW := 10_000

  datatype Confirm = Armed | Proceed

  predicate IsArmed(armedUntil: Option<int>, now: int) {
    armedUntil.Some? && now < armedUntil.value
  }

  class ShutdownConfirm {
    var armedUntil: Option<int>

    constructor ()
      ensures armedUntil == None
    {
      armedUntil := None;
    }

    method Click(now: int) returns (outcome: Confirm)
      modifies this
      ensures outcome == if IsArmed(old(armedUntil), now) then Proceed else Armed
      ensures armedUntil == if outcome.Proceed? then None else Some(now + CONFIRM_WINDOW)
    {
      if IsArmed(armedUntil, now) {
        armedUntil := None;
        return Proceed;
      }
      armedUntil := Some(now + CONFIRM_WINDOW);
      outcome := Armed;
    }
  }

  /** The window after clicks at these times, and what each click meant. */
  function ArmedAfter(clicks: seq<int>): Option<int> {
    if clicks == [] then None
    else
      var n := |clicks| - 1;
      if IsArmed(ArmedAfter(clicks[..n]), clicks[n]) then None else Some(clicks[n] + CONFIRM_WINDOW)
  }

  function OutcomeAt(clicks: seq<int>, k: nat): Confirm
    requires k < |clicks|
  {
    if IsArmed(ArmedAfter(clicks[..k]), clicks[k]) then Proceed else Armed
  }

  /** A click shuts down exactly when the click before it armed the item, less than ten seconds ago. */
  lemma ProceedsIffConfirmedInTime(clicks: seq<int>, k: nat)
    requires k < |clicks|
    ensures OutcomeAt(clicks, k).Proceed?
       <==> k > 0 && OutcomeAt(clicks, k - 1).Armed? && clicks[k] < clicks[k - 1] + CONFIRM_WINDOW
  {
    if k > 0 {
      assert clicks[..k][..k - 1] == clicks[..k - 1];
    }
  }

  // ---------------------------------------------------------------- the render cache

  /** What the menu shows, field by field in the order `render` goes through them. */
  type Menu = seq<string>

  const FIELDS := 8

  class MenuCache {
    /** The real menu, and what the tray believes it to be. */
    var menu: Menu
    var shown: Menu
    /** Calls that reached the desktop. */
    var writes: nat

    constructor (built: Menu)
      ensures menu == built && shown == built && writes == 0
    {
      menu, shown, writes := built, built, 0;
    }

    /** One pass with the render lock held. A field is written only when it differs from the cache. */
    method Draw(target: Menu)
      requires |menu| == |shown| == |target| == FIELDS && menu == shown
      modifies this
      ensures menu == shown == target
      ensures writes == old(writes) + Differing(old(shown), target, FIELDS)
    {
      for i := 0 to FIELDS
        invariant |menu| == |shown| == FIELDS && menu == shown
        invariant shown == target[..i] + old(shown)[i..]
        invariant writes == old(writes) + Differing(old(shown), target, i)
      {
        if target[i] != shown[i] {
          menu := menu[i := target[i]];
          shown := shown[i := target[i]];
          writes := writes + 1;
        }
        OneMoreField(target, old(shown), i);
      }
      assert target[..FIELDS] == target;
    }
  }

  lemma OneMoreField(target: Menu, before: Menu, i: nat)
    requires i < |target| == |before|
    ensures var shown := target[..i] + before[i..];
            && shown[i] == before[i]
            && target[..i + 1] + before[i + 1..] == if target[i] != before[i] then shown[i := target[i]] else shown
  {
  }

  function Differing(a: Menu, b: Menu, n: nat): nat
    requires n <= |a| && n <= |b|
  {
    if n == 0 then 0 else Differing(a, b, n - 1) + (if a[n - 1] != b[n - 1] then 1 else 0)
  }

  /** The writes of a render are as many as the fields that differ. */
  lemma {:induction false} OneWriteADifference(a: Menu, b: Menu, n: nat)
    requires n <= |a| && n <= |b|
    ensures Differing(a, b, n) == |set i | 0 <= i < n && a[i] != b[i]|
  {
    var differing := set i | 0 <= i < n && a[i] != b[i];
    assert n == 0 ==> differing == {};
    if n > 0 {
      OneWriteADifference(a, b, n - 1);
      var before, now := set i | 0 <= i < n - 1 && a[i] != b[i], set i | 0 <= i < n && a[i] != b[i];
      assert now == if a[n - 1] != b[n - 1] then before + {n - 1} else before;
    }
  }

  /** A poll that changes nothing reaches the desktop with nothing. */
  lemma {:induction false} NothingToDraw(a: Menu, n: nat)
    requires n <= |a|
    ensures Differing(a, a, n) == 0
  {
    if n > 0 {
      NothingToDraw(a, n - 1);
    }
  }

  // ---------------------------------------------------------------- the goroutines

  /** What a poll last found out. */
  datatype Facts = Facts(
    status: string, icon: string, lifecycleTitle: string, lifecycleEnabled: bool, connected: bool, version: string)

  function Flag(b: bool): string {
    if b then "enabled" else "disabled"
  }

  const TITLE_STARTING := "Starting server\U{2026}"
  const TITLE_SHUTDOWN := "Shut down Loombre\U{2026}"
  const TITLE_CONFIRM := "Click again to confirm shut-down"
  const TITLE_SHUTTING_DOWN := "Shutting down Loombre\U{2026}"

  /** The lifecycle item's goroutine: it has checked that nothing is in flight and will start the
      services, or it has set the flag and systemd is starting them. */
  datatype Lifecycle = Resting | Checked | Starting

  datatype Shutdown = Waiting | Stopping | Quit

  /** A render has taken its snapshot, and may hold the render lock: `Drawing(n)` is after `n` of its
      single writes, menu and cache in turn. */
  datatype RenderPc = Snapped | Drawing(done: nat)

  datatype Render = Render(target: Menu, pc: RenderPc)

  datatype World = World(
    facts: Facts, startInFlight: bool, shutdownInFlight: bool, armedUntil: Option<int>, now: int,
    lifecycle: Lifecycle, shutdown: Shutdown,
    renders: map<nat, Render>, owner: Option<nat>, menu: Menu, shown: Menu)

  /** What a render that takes its snapshot now will draw. */
  function Target(w: World): (m: Menu)
    ensures |m| == FIELDS
  {
    var f := w.facts;
    [f.status, f.icon,
     if w.startInFlight then TITLE_STARTING else f.lifecycleTitle,
     Flag(!w.startInFlight && !w.shutdownInFlight && f.lifecycleEnabled),
     if w.shutdownInFlight then TITLE_SHUTTING_DOWN else if IsArmed(w.armedUntil, w.now) then TITLE_CONFIRM else TITLE_SHUTDOWN,
     Flag(!w.shutdownInFlight && !w.startInFlight),
     Flag(f.connected), f.version]
  }

  datatype Step =
    | Tick(later: int)
    | Apply(facts: Facts)
    // any goroutine's render
    | Snapshot(t: nat) | Lock(t: nat) | WriteNext(t: nat) | Unlock(t: nat)
    // a click on the lifecycle item whose plan is a start
    | CheckBusy | BeginStart | EndStart
    // a click on the shutdown item
    | ClickShutdown | FailShutdown | FinishShutdown

  predicate Enabled(w: World, s: Step) {
    match s
    case Tick(later) => w.now <= later
    case Apply(_) => true
    case Snapshot(t) => t !in w.renders
    case Lock(t) => t in w.renders && w.renders[t].pc.Snapped? && w.owner.None?
    case WriteNext(t) => w.owner == Some(t) && t in w.renders && w.renders[t].pc.Drawing? && w.renders[t].pc.done < 2 * FIELDS
    case Unlock(t) => w.owner == Some(t) && t in w.renders && w.renders[t].pc == Drawing(2 * FIELDS)
    case CheckBusy => w.lifecycle.Resting?
    case BeginStart => w.lifecycle.Checked?
    case EndStart => w.lifecycle.Starting?
    case ClickShutdown => w.shutdown.Waiting?
    case FailShutdown => w.shutdown.Stopping?
    case FinishShutdown => w.shutdown.Stopping?
  }

  /** Whether a click on the shutdown item starts the shutdown. */
  predicate Shuts(w: World) {
    !w.shutdownInFlight && !w.startInFlight && IsArmed(w.armedUntil, w.now)
  }

  /** Single writes go menu, cache, menu, cache; both are skipped for a field that is already shown. */
  function Written(w: World, t: nat): World
    requires t in w.renders && w.renders[t].pc.Drawing? && w.renders[t].pc.done < 2 * FIELDS
    requires |w.renders[t].target| == |w.menu| == |w.shown| == FIELDS
  {
    var r := w.renders[t];
    var i := r.pc.done / 2;
    var moved := w.(renders := w.renders[t := r.(pc := Drawing(r.pc.done + 1))]);
    if r.pc.done % 2 == 0
    then (if r.target[i] != w.shown[i] then moved.(menu := w.menu[i := r.target[i]]) else moved)
    else moved.(shown := w.shown[i := r.target[i]])
  }

  predicate Shaped(w: World) {
    && |w.menu| == |w.shown| == FIELDS
    && forall t :: t in w.renders ==> |w.renders[t].target| == FIELDS
  }

  function Next(w: World, s: Step): World
    requires Enabled(w, s) && Shaped(w)
  {
    match s
    case Tick(later) => w.(now := later)
    case Apply(facts) => w.(facts := facts)
    case Snapshot(t) => w.(renders := w.renders[t := Render(Target(w), Snapped)])
    case Lock(t) => w.(owner := Some(t), renders := w.renders[t := w.renders[t].(pc := Drawing(0))])
    case WriteNext(t) => Written(w, t)
    case Unlock(t) => w.(owner := None, renders := w.renders - {t})
    case CheckBusy => if w.startInFlight || w.shutdownInFlight then w else w.(lifecycle := Checked)
    case BeginStart => if w.startInFlight then w.(lifecycle := Resting) else w.(startInFlight := true, lifecycle := Starting)
    case EndStart => w.(startInFlight := false, lifecycle := Resting)
    case ClickShutdown =>
      if Shuts(w) then w.(armedUntil := None, shutdownInFlight := true, shutdown := Stopping)
      else if w.shutdownInFlight || w.startInFlight then w
      else w.(armedUntil := Some(w.now + CONFIRM_WINDOW))
    case FailShutdown => w.(shutdownInFlight := false, shutdown := Waiting)
    case FinishShutdown => w.(shutdown := Quit)
  }

  /** The menu as built, before any goroutine runs. */
  predicate Initial(w: World) {
    && Shaped(w) && w.menu == w.shown && w.renders == map[] && w.owner.None?
    && !w.startInFlight && !w.shutdownInFlight && w.lifecycle.Resting? && w.shutdown.Waiting? && w.armedUntil.None?
  }

  // ---------------------------------------------------------------- invariants

  /** In a render, the cache agrees with the menu except for the field between its two writes. */
  predicate CacheAgrees(w: World) {
    && Shaped(w)
    && (w.owner.None? ==> w.shown == w.menu)
    && (w.owner.Some? ==>
          && w.owner.value in w.renders && w.renders[w.owner.value].pc.Drawing?
          && var r := w.renders[w.owner.value];
             && r.pc.done <= 2 * FIELDS
             && (forall i :: 0 <= i < r.pc.done / 2 ==> w.shown[i] == r.target[i])
             && (forall i :: 0 <= i < FIELDS && !(r.pc.done % 2 == 1 && i == r.pc.done / 2) ==> w.shown[i] == w.menu[i])
             && (r.pc.done % 2 == 1 ==> w.menu[r.pc.done / 2] == r.target[r.pc.done / 2]))
    && (forall t :: t in w.renders && w.renders[t].pc.Drawing? ==> w.owner == Some(t))
  }

  /** The flags say where the two goroutines are. */
  predicate FlagsAgree(w: World) {
    && (w.startInFlight <==> w.lifecycle.Starting?)
    && (w.shutdownInFlight <==> !w.shutdown.Waiting?)
  }

  lemma KeepsCache(w: World, s: Step)
    requires CacheAgrees(w) && Enabled(w, s)
    ensures CacheAgrees(Next(w, s))
  {
    match s
    case WriteNext(t) => WriteKeepsCache(w, t);
    case _ =>
  }

  lemma MenuWriteKeepsCache(w: World, t: nat)
    requires CacheAgrees(w) && Enabled(w, WriteNext(t)) && w.renders[t].pc.done % 2 == 0
    ensures CacheAgrees(Next(w, WriteNext(t)))
  {
    var done := w.renders[t].pc.done;
    assert (done + 1) / 2 == done / 2 && (done + 1) % 2 == 1;
  }

  lemma CacheWriteKeepsCache(w: World, t: nat)
    requires CacheAgrees(w) && Enabled(w, WriteNext(t)) && w.renders[t].pc.done % 2 == 1
    ensures CacheAgrees(Next(w, WriteNext(t)))
  {
    var done := w.renders[t].pc.done;
    assert (done + 1) / 2 == done / 2 + 1 && (done + 1) % 2 == 0;
  }

  lemma WriteKeepsCache(w: World, t: nat)
    requires CacheAgrees(w) && Enabled(w, WriteNext(t))
    ensures CacheAgrees(Next(w, WriteNext(t)))
  {
    if w.renders[t].pc.done % 2 == 0 {
      MenuWriteKeepsCache(w, t);
    } else {
      CacheWriteKeepsCache(w, t);
    }
  }

  lemma KeepsFlags(w: World, s: Step)
    requires Shaped(w) && FlagsAgree(w) && Enabled(w, s)
    ensures FlagsAgree(Next(w, s))
  {
  }

  predicate Legal(w: World, run: seq<Step>)
    decreases |run|, 0
  {
    Shaped(w) && (run == [] || (Enabled(w, run[0]) && Legal(Next(w, run[0]), run[1..])))
  }

  function After(w: World, run: seq<Step>): (after: World)
    requires Legal(w, run)
    ensures Shaped(after)
    decreases |run|, 1
  {
    if run == [] then w else After(Next(w, run[0]), run[1..])
  }

  lemma {:induction false} RunKeeps(w: World, run: seq<Step>)
    requires Legal(w, run) && CacheAgrees(w) && FlagsAgree(w)
    ensures CacheAgrees(After(w, run)) && FlagsAgree(After(w, run))
    decreases |run|
  {
    if run != [] {
      KeepsCache(w, run[0]);
      KeepsFlags(w, run[0]);
      RunKeeps(Next(w, run[0]), run[1..]);
    }
  }

  /** In every interleaving the cache equals the real menu whenever the render lock is free. */
  lemma CacheIsTheMenu(w: World, run: seq<Step>)
    requires Initial(w) && Legal(w, run) && After(w, run).owner.None?
    ensures After(w, run).shown == After(w, run).menu
  {
    RunKeeps(w, run);
  }

  /** A render that is done has drawn exactly its snapshot. */
  lemma RenderDrawsItsSnapshot(w: World, run: seq<Step>, t: nat)
    requires Initial(w) && Legal(w, run) && Enabled(After(w, run), Unlock(t))
    ensures After(w, run).menu == After(w, run).renders[t].target
  {
    RunKeeps(w, run);
    assert 2 * FIELDS / 2 == FIELDS;
  }

  // ---------------------------------------------------------------- start and shutdown

  predicate Overlap(w: World) {
    w.startInFlight && w.shutdownInFlight
  }

  /** The shutdown begins while a start has passed its busy check and not yet taken the lock. */
  predicate BeginsInWindow(w: World, s: Step) {
    s.ClickShutdown? && Shuts(w) && w.lifecycle.Checked?
  }

  predicate HitsWindow(w: World, run: seq<Step>)
    requires Legal(w, run)
    decreases |run|
  {
    run != [] && (BeginsInWindow(w, run[0]) || HitsWindow(Next(w, run[0]), run[1..]))
  }

  lemma {:induction false} NoWindowNoOverlap(w: World, run: seq<Step>)
    requires Legal(w, run) && FlagsAgree(w) && !HitsWindow(w, run)
    requires w.shutdownInFlight ==> w.lifecycle.Resting?
    ensures !Overlap(After(w, run))
    decreases |run|
  {
    if run != [] {
      KeepsFlags(w, run[0]);
      NoWindowNoOverlap(Next(w, run[0]), run[1..]);
    }
  }

  /** A start and a shutdown are in flight together only after a shutdown that began in the window
      between a start's busy check and its lock. */
  lemma OverlapNeedsTheWindow(w: World, run: seq<Step>)
    requires Initial(w) && Legal(w, run) && Overlap(After(w, run))
    ensures HitsWindow(w, run)
  {
    if !HitsWindow(w, run) {
      NoWindowNoOverlap(w, run);
    }
  }

  /** A shutdown never begins while a start is in flight, and only on a confirmed click. */
  lemma ShutdownNeverBeginsDuringStart(w: World, run: seq<Step>, s: Step)
    requires Initial(w) && Legal(w, run) && Enabled(After(w, run), s)
    ensures var before, after := After(w, run), Next(After(w, run), s);
            !before.shutdownInFlight && after.shutdownInFlight
            ==> s.ClickShutdown? && !before.startInFlight && !before.lifecycle.Starting? && IsArmed(before.armedUntil, before.now)
  {
    RunKeeps(w, run);
  }

  // ---------------------------------------------------------------- what the menu says

  /** In every interleaving, a render that takes its snapshot now draws where the two goroutines are:
      neither item can be clicked while either is at work, the lifecycle item says that a start is under
      way, and the shutdown item that a shutdown is. */
  lemma MenuTellsWhatRuns(w: World, run: seq<Step>)
    requires Initial(w) && Legal(w, run)
    ensures var x, m := After(w, run), Target(After(w, run));
            var idle := x.shutdown.Waiting? && !x.lifecycle.Starting?;
            && m[0] == x.facts.status && m[1] == x.facts.icon && m[7] == x.facts.version
            && m[2] == (if x.lifecycle.Starting? then "Starting server\U{2026}" else x.facts.lifecycleTitle)
            && m[3] == (if idle && x.facts.lifecycleEnabled then "enabled" else "disabled")
            && (!x.shutdown.Waiting? ==> m[4] == "Shutting down Loombre\U{2026}")
            && m[5] == (if idle then "enabled" else "disabled")
            && m[6] == (if x.facts.connected then "enabled" else "disabled")
  {
    RunKeeps(w, run);
  }

  /** The shutdown item can be clicked and asks for confirmation exactly when the next click on it shuts
      down; otherwise an item that can be clicked asks to be clicked again after the next click. */
  lemma ItemSaysWhatAClickDoes(w: World)
    requires Shaped(w) && FlagsAgree(w) && Enabled(w, ClickShutdown)
    ensures var m, after := Target(w), Next(w, ClickShutdown);
            && (after.shutdown.Stopping? <==> m[5] == "enabled" && m[4] == "Click again to confirm shut-down")
            && (!after.shutdown.Stopping? && m[5] == "enabled"
                ==> m[4] == "Shut down Loombre\U{2026}" && Target(after)[4] == "Click again to confirm shut-down")
            && (m[5] == "disabled" ==> after == w)
  {
    TitlesDiffer();
  }

  lemma TitlesDiffer()
    ensures TITLE_CONFIRM != TITLE_SHUTDOWN && TITLE_CONFIRM != TITLE_SHUTTING_DOWN && "enabled" != "disabled"
  {
    assert TITLE_CONFIRM[0] == 'C' && TITLE_SHUTDOWN[0] == 'S' && TITLE_SHUTTING_DOWN[0] == 'S';
    assert "enabled"[0] == 'e';
  }

  // ---------------------------------------------------------------- two clicks within ten seconds

  /** The clock after these steps. */
  function Clock(now: int, run: seq<Step>): int
    decreases |run|
  {
    if run == [] then now else Clock(if run[0].Tick? then run[0].later else now, run[1..])
  }

  lemma {:induction false} NowIsTheClock(w: World, run: seq<Step>)
    requires Legal(w, run)
    ensures After(w, run).now == Clock(w.now, run)
    decreases |run|
  {
    if run != [] {
      NowIsTheClock(Next(w, run[0]), run[1..]);
    }
  }

  /** Click `k` of the run set the window that ends at `until`. */
  predicate ArmedBy(now: int, run: seq<Step>, k: nat, until: int) {
    k < |run| && run[k].ClickShutdown? && until == Clock(now, run[..k]) + 10_000
  }

  lemma ArmedByLater(now: int, run: seq<Step>, k: nat, until: int)
    requires run != []
    requires ArmedBy(if run[0].Tick? then run[0].later else now, run[1..], k, until)
    ensures ArmedBy(now, run, k + 1, until)
  {
    assert run[..k + 1][1..] == run[1..][..k];
  }

  lemma {:induction false} WindowsComeFromClicks(w: World, run: seq<Step>)
    requires Legal(w, run) && After(w, run).armedUntil.Some?
    ensures var until := After(w, run).armedUntil;
            until == w.armedUntil || exists k: nat :: ArmedBy(w.now, run, k, until.value)
    decreases |run|
  {
    if run != [] {
      var w1, until := Next(w, run[0]), After(w, run).armedUntil;
      WindowsComeFromClicks(w1, run[1..]);
      if until == w1.armedUntil {
        if until != w.armedUntil {
          assert run[..0] == [];
          assert ArmedBy(w.now, run, 0, until.value);
        }
      } else {
        var k: nat :| ArmedBy(w1.now, run[1..], k, until.value);
        ArmedByLater(w.now, run, k, until.value);
      }
    }
  }

  lemma OnlyAnArmedClickShuts(w: World)
    requires Shaped(w) && Enabled(w, ClickShutdown) && Next(w, ClickShutdown).shutdown.Stopping?
    ensures w.armedUntil.Some? && w.now < w.armedUntil.value
  {
  }

  lemma ArmedInTime(now: int, run: seq<Step>, until: int)
    requires (exists k: nat :: ArmedBy(now, run, k, until)) && Clock(now, run) < until
    ensures exists k :: && 0 <= k < |run| && run[k].ClickShutdown?
                        && Clock(now, run) < Clock(now, run[..k]) + 10_000
  {
    var k: nat :| ArmedBy(now, run, k, until);
    assert run[k].ClickShutdown?;
  }

  /** No single click ever shuts the server down: in every interleaving, the click that begins a shutdown
      follows another one by less than ten seconds of the clock. */
  lemma ShutdownTakesTwoClicks(w: World, run: seq<Step>)
    requires Initial(w) && Legal(w, run) && Enabled(After(w, run), ClickShutdown)
    requires Next(After(w, run), ClickShutdown).shutdown.Stopping?
    ensures exists k :: && 0 <= k < |run| && run[k].ClickShutdown?
                        && Clock(w.now, run) < Clock(w.now, run[..k]) + 10_000
  {
    var x := After(w, run);
    OnlyAnArmedClickShuts(x);
    NowIsTheClock(w, run);
    WindowsComeFromClicks(w, run);
    ArmedInTime(w.now, run, x.armedUntil.value);
  }

  lemma {:induction false} DisarmedWhileStopping(w: World, run: seq<Step>)
    requires Legal(w, run) && FlagsAgree(w) && (!w.shutdown.Waiting? ==> w.armedUntil.None?)
    ensures !After(w, run).shutdown.Waiting? ==> After(w, run).armedUntil.None?
    decreases |run|
  {
    if run != [] {
      KeepsFlags(w, run[0]);
      DisarmedWhileStopping(Next(w, run[0]), run[1..]);
    }
  }

  /** A shutdown can always fail, and when it does the item asks from the start again: it is never left
      armed. */
  lemma FailedShutdownAsksAgain(w: World, run: seq<Step>)
    requires Initial(w) && Legal(w, run) && After(w, run).shutdown.Stopping?
    ensures Enabled(After(w, run), FailShutdown)
    ensures var back := Next(After(w, run), FailShutdown);
            && Target(back)[4] == "Shut down Loombre\U{2026}" && Enabled(back, ClickShutdown)
            && !Next(back, ClickShutdown).shutdownInFlight
  {
    RunKeeps(w, run);
    DisarmedWhileStopping(w, run);
  }

  /** From the window both are in flight one step later. */
  lemma WindowLeadsToOverlap(w: World)
    requires Shaped(w) && FlagsAgree(w) && Enabled(w, ClickShutdown) && BeginsInWindow(w, ClickShutdown)
    ensures Legal(w, [ClickShutdown, BeginStart]) && Overlap(After(w, [ClickShutdown, BeginStart]))
  {
    var w1 := Next(w, ClickShutdown);
    var w2 := Next(w1, BeginStart);
    assert [ClickShutdown, BeginStart][1..] == [BeginStart] && [BeginStart][1..] == [];
    assert Legal(w2, []) && Legal(w1, [BeginStart]);
    assert After(w1, [BeginStart]) == After(w2, []);
  }

  /** And a run reaches it: two clicks on the shutdown item around the start's busy check. */
  lemma WindowIsReached(w: World)
    requires Initial(w)
    ensures var run := [ClickShutdown, CheckBusy, ClickShutdown, BeginStart];
            Legal(w, run) && Overlap(After(w, run))
  {
    var w1 := Next(w, ClickShutdown);
    var w2 := Next(w1, CheckBusy);
    WindowLeadsToOverlap(w2);
    var run := [ClickShutdown, CheckBusy, ClickShutdown, BeginStart];
    assert run[1..] == [CheckBusy, ClickShutdown, BeginStart];
    assert run[1..][1..] == [ClickShutdown, BeginStart];
    assert Legal(w1, run[1..]);
    assert After(w1, run[1..]) == After(w2, run[1..][1..]);
  }

  // ---------------------------------------------------------------- stale renders

  /** Nothing that a snapshot reads differs. */
  predicate SameSight(w: World, v: World) {
    && w.facts == v.facts && w.startInFlight == v.startInFlight && w.shutdownInFlight == v.shutdownInFlight
    && w.armedUntil == v.armedUntil && w.now == v.now
  }

  lemma SameTarget(w: World, v: World)
    requires SameSight(w, v)
    ensures Target(w) == Target(v)
  {
  }

  function Writes(t: nat, n: nat): seq<Step> {
    if n == 0 then [] else [WriteNext(t)] + Writes(t, n - 1)
  }

  function Draws(t: nat): seq<Step> {
    [Lock(t)] + Writes(t, 2 * FIELDS) + [Unlock(t)]
  }

  lemma {:induction false} RunConcat(w: World, a: seq<Step>, b: seq<Step>)
    requires Legal(w, a) && Legal(After(w, a), b)
    ensures Legal(w, a + b) && After(w, a + b) == After(After(w, a), b)
    decreases |a|
  {
    if a == [] {
      assert a + b == b;
    } else {
      assert (a + b)[0] == a[0] && (a + b)[1..] == a[1..] + b;
      RunConcat(Next(w, a[0]), a[1..], b);
    }
  }

  lemma OneWrite(w: World, t: nat)
    requires CacheAgrees(w) && Enabled(w, WriteNext(t))
    ensures var r, after := w.renders[t], Next(w, WriteNext(t));
            && CacheAgrees(after) && after.owner == Some(t)
            && after.renders == w.renders[t := Render(r.target, Drawing(r.pc.done + 1))]
            && SameSight(w, after)
  {
    WriteKeepsCache(w, t);
  }

  lemma OneStepThen(w: World, s: Step, rest: seq<Step>)
    requires Shaped(w) && Enabled(w, s) && Legal(Next(w, s), rest)
    ensures Legal(w, [s] + rest) && After(w, [s] + rest) == After(Next(w, s), rest)
  {
    assert ([s] + rest)[0] == s && ([s] + rest)[1..] == rest;
  }

  /** Render `t` has made all its writes, and nothing else has happened. */
  predicate WroteAll(w: World, t: nat, renders: map<nat, Render>, after: World)
    requires t in renders
  {
    && CacheAgrees(after) && after.owner == Some(t) && SameSight(w, after)
    && after.renders == renders[t := Render(renders[t].target, Drawing(2 * FIELDS))]
  }

  lemma WroteOneMore(w: World, w1: World, t: nat, pc: RenderPc, after: World)
    requires t in w.renders && w1.renders == w.renders[t := Render(w.renders[t].target, pc)] && SameSight(w, w1)
    requires WroteAll(w1, t, w1.renders, after)
    ensures WroteAll(w, t, w.renders, after)
  {
  }

  lemma {:induction false} WritesToTheEnd(w: World, t: nat, n: nat)
    requires CacheAgrees(w) && w.owner == Some(t) && n <= 2 * FIELDS && w.renders[t].pc.done == 2 * FIELDS - n
    ensures Legal(w, Writes(t, n)) && WroteAll(w, t, w.renders, After(w, Writes(t, n)))
    decreases n
  {
    if n > 0 {
      OneWrite(w, t);
      var w1 := Next(w, WriteNext(t));
      WritesToTheEnd(w1, t, n - 1);
      OneStepThen(w, WriteNext(t), Writes(t, n - 1));
      WroteOneMore(w, w1, t, w1.renders[t].pc, After(w1, Writes(t, n - 1)));
    } else {
      assert w.renders == w.renders[t := Render(w.renders[t].target, Drawing(2 * FIELDS))];
    }
  }

  /** The end of a render. */
  lemma Unlocks(w: World, t: nat)
    requires CacheAgrees(w) && w.owner == Some(t) && w.renders[t].pc == Drawing(2 * FIELDS)
    ensures Legal(w, [Unlock(t)])
    ensures var after := After(w, [Unlock(t)]);
            && CacheAgrees(after) && after.owner.None? && after.renders == w.renders - {t}
            && after.menu == w.renders[t].target && SameSight(w, after)
  {
    var after := Next(w, Unlock(t));
    KeepsCache(w, Unlock(t));
    FullyDrawn(w, t);
    assert [Unlock(t)][1..] == [] && Legal(after, []);
    assert After(w, [Unlock(t)]) == After(after, []);
  }

  lemma Locks(w: World, t: nat)
    requires CacheAgrees(w) && Enabled(w, Lock(t))
    ensures var locked := Next(w, Lock(t));
            && CacheAgrees(locked) && locked.owner == Some(t) && SameSight(w, locked)
            && locked.renders == w.renders[t := Render(w.renders[t].target, Drawing(0))]
  {
    KeepsCache(w, Lock(t));
  }

  /** What a render does once it has the lock. */
  lemma DrawsAndUnlocks(w: World, t: nat)
    requires CacheAgrees(w) && w.owner == Some(t) && w.renders[t].pc == Drawing(0)
    ensures Legal(w, Writes(t, 2 * FIELDS) + [Unlock(t)])
    ensures var after := After(w, Writes(t, 2 * FIELDS) + [Unlock(t)]);
            && CacheAgrees(after) && after.owner.None? && after.renders == w.renders - {t}
            && after.menu == w.renders[t].target && SameSight(w, after)
  {
    WritesToTheEnd(w, t, 2 * FIELDS);
    var drawn := After(w, Writes(t, 2 * FIELDS));
    Unlocks(drawn, t);
    RunConcat(w, Writes(t, 2 * FIELDS), [Unlock(t)]);
    assert drawn.renders - {t} == w.renders - {t};
  }

  /** A render that gets the lock can draw its snapshot, however old that is. */
  lemma DrawsASnapshot(w: World, t: nat)
    requires CacheAgrees(w) && w.owner.None? && t in w.renders && w.renders[t].pc.Snapped?
    ensures Legal(w, Draws(t))
    ensures var after := After(w, Draws(t));
            && CacheAgrees(after) && after.owner.None? && after.renders == w.renders - {t}
            && after.menu == w.renders[t].target && SameSight(w, after)
  {
    Locks(w, t);
    var locked, rest := Next(w, Lock(t)), Writes(t, 2 * FIELDS) + [Unlock(t)];
    DrawsAndUnlocks(locked, t);
    assert locked.renders - {t} == w.renders - {t};
    assert Draws(t)[0] == Lock(t) && Draws(t)[1..] == rest;
    assert After(w, Draws(t)) == After(locked, rest);
  }

  lemma FullyDrawn(w: World, t: nat)
    requires CacheAgrees(w) && w.owner == Some(t) && w.renders[t].pc == Drawing(2 * FIELDS)
    ensures w.menu == w.shown == w.renders[t].target
  {
    assert 2 * FIELDS / 2 == FIELDS;
  }

  /** The menu shows the snapshot that is drawn last, not the one that was taken last: with two renders
      waiting for the lock, either can end up on the menu, until the next render. */
  lemma LastDrawnWins(w: World, t: nat, u: nat)
    requires CacheAgrees(w) && w.owner.None? && t in w.renders && u in w.renders && t != u
    requires w.renders[t].pc.Snapped? && w.renders[u].pc.Snapped?
    ensures Legal(w, Draws(t) + Draws(u))
    ensures var after := After(w, Draws(t) + Draws(u));
            && after.owner.None? && after.menu == w.renders[u].target
            && (after.menu == Target(after) <==> w.renders[u].target == Target(w))
  {
    DrawsASnapshot(w, t);
    var w1 := After(w, Draws(t));
    DrawsASnapshot(w1, u);
    RunConcat(w, Draws(t), Draws(u));
    SameTarget(w, After(w1, Draws(u)));
  }
}
