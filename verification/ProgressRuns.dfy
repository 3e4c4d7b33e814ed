/** Installer script and display side by side: script lines, property reads and ticks
    interleave in any order. */
module ProgressRuns {
  import opened Milestones
  import opened OtaScript
  import opened OtaRuns
  import opened ScriptOrder
  import opened OtaUi

  /** `pc` script lines have run. `reported` is the largest value the script has reported,
      0 before the first; `done` says that the main loop of the display has ended. */
  datatype Sys = Sys(dev: Device, pc: nat, ui: Ui, reported: int, done: bool)

  /** The two properties are read one after the other, so script lines may fall between. */
  datatype Event = RunLine | ReadCurrent | ReadNext | UiTick

  function Max(a: int, b: int): int {
    if a >= b then a else b
  }

  predicate Reports(d: Device, l: Line) {
    d.status.Running? && (l.InBlock? ==> d.block) && l.cmd.SetCurrent?
  }

  /** A tick is the rest of a round of the main loop: the loop ends on a failure, and as soon
      as 100 is shown. */
  function Next(w: World, script: seq<Line>, s: Sys, e: Event): Sys {
    match e
    case RunLine =>
      if s.pc < |script| then
        var l := script[s.pc];
        s.(dev := OtaRuns.Step(w, s.dev, l), pc := s.pc + 1,
           reported := if Reports(s.dev, l) then Max(s.reported, l.cmd.value) else s.reported)
      else s
    case ReadCurrent => s.(ui := s.ui.(prev := s.dev.current))
    case ReadNext => s.(ui := s.ui.(next := s.dev.next))
    case UiTick =>
      if s.done then s
      else if s.ui.prev < 0 then s.(done := true)
      else s.(ui := Tick(s.ui), done := Tick(s.ui).current >= 100)
  }

  function Run(w: World, script: seq<Line>, s: Sys, es: seq<Event>): Sys
    decreases |es|
  {
    if es == [] then s else Run(w, script, Next(w, script, s, es[0]), es[1..])
  }

  /** Before the script has started: the properties hold what an earlier run left, and the
      display was started at 99 or below. */
  predicate Unstarted(s: Sys, start: int) {
    s.pc == 0 && s.dev.status.Running? && s.reported == 0 && !s.done && s.ui == Ui(start, 0, 0, 0, 0) && start <= 99
  }

  // ----- the display never goes back

  /** As long as the main loop runs, the display shows 99 at most. */
  predicate Below(s: Sys) {
    s.done || s.ui.current <= 99
  }

  /** For every script, whatever the properties held before, and every interleaving: the
      display never goes back and never passes 100. */
  lemma {:induction false} NeverGoesBack(w: World, script: seq<Line>, s: Sys, es: seq<Event>, k: nat)
    requires Below(s) && s.ui.current <= 100 && k <= |es|
    ensures Run(w, script, s, es[..k]).ui.current <= Run(w, script, s, es).ui.current <= 100
  {
    RunSplit(w, script, s, es, k);
    StaysBelow(w, script, s, es[..k]);
    StaysBelow(w, script, Run(w, script, s, es[..k]), es[k..]);
  }

  lemma {:induction false} StaysBelow(w: World, script: seq<Line>, s: Sys, es: seq<Event>)
    requires Below(s) && s.ui.current <= 100
    ensures var end := Run(w, script, s, es);
            Below(end) && s.ui.current <= end.ui.current <= 100
    decreases |es|
  {
    if es != [] {
      StaysBelow(w, script, Next(w, script, s, es[0]), es[1..]);
    }
  }

  lemma {:induction false} RunSplit(w: World, script: seq<Line>, s: Sys, es: seq<Event>, k: nat)
    requires k <= |es|
    ensures Run(w, script, s, es) == Run(w, script, Run(w, script, s, es[..k]), es[k..])
    decreases k
  {
    if k == 0 {
      assert es[..k] == [] && es[k..] == es;
    } else {
      RunSplit(w, script, Next(w, script, s, es[0]), es[1..], k - 1);
      assert es[..k][0] == es[0] && es[..k][1..] == es[1..][..k - 1] && es[1..][k - 1..] == es[k..];
    }
  }

  /** The bound on the start value is needed: while less than 100 is reported, a tick of the
      running loop lowers the display exactly when it shows 100 or more. */
  lemma HighStartGoesBack(w: World, script: seq<Line>, s: Sys)
    requires 0 <= s.ui.prev < 100 && !s.done
    ensures Next(w, script, s, UiTick).ui.current < s.ui.current <==> s.ui.current >= 100
  {
  }

  // ----- what a climbing script keeps

  /** After p lines of user script the script reports 30 and announces a value. */
  predicate Opens(script: seq<Line>, p: nat) {
    && p + 1 < |script|
    && (forall i :: 0 <= i < p ==> script[i] == Plain(UserText))
    && script[p] == Plain(SetCurrent(30)) && script[p + 1].Plain? && script[p + 1].cmd.SetNext?
  }

  /** What the script has reported and announced itself. */
  function Said(s: Sys, p: nat): Gauge {
    Gauge(if s.pc <= p then 30 else s.dev.current, if s.pc <= p + 1 then 100 else s.dev.next, s.dev.block)
  }

  /** What the script keeps, whatever the properties held before. */
  predicate ScriptInv(script: seq<Line>, p: nat, bounded: bool, s: Sys) {
    && Opens(script, p) && s.pc <= |script| && s.reported <= 100
    && (s.pc <= p + 1 ==> s.dev.status.Running?)
    && (s.pc <= p ==> s.reported == 0)
    && (s.pc > p && s.dev.status.Running? ==> s.dev.current >= 30)
    && (s.dev.status.Running? ==> Climbs(script[s.pc..], bounded, Said(s, p)))
    && (bounded && s.pc > p + 1 ==> s.dev.current <= s.dev.next)
  }

  /** What holds besides when less than 100 was left in the progress property: only the
      script brings 100 into it and onto the display. */
  predicate DisplayInv(s: Sys) {
    s.dev.current >= 100 || s.ui.prev >= 100 || s.ui.current >= 100 ==> s.reported == 100
  }

  lemma ClimbsTail(script: seq<Line>, pc: nat, bounded: bool, g: Gauge)
    requires pc < |script| && Climbs(script[pc..], bounded, g)
    ensures var l, rest := script[pc], script[pc + 1..];
            if l.InBlock? && !g.block then Climbs(rest, bounded, g)
            else
              && (l.cmd.SetCurrent? ==>
                    && g.shown <= l.cmd.value <= 100 && (bounded ==> l.cmd.value <= g.announced)
                    && Climbs(rest, bounded, g.(shown := l.cmd.value)))
              && (l.cmd.SetNext? ==>
                    g.shown <= l.cmd.value <= 100 && Climbs(rest, bounded, g.(announced := l.cmd.value)))
              && (l.cmd.TestMissing? ==>
                    Climbs(rest, bounded, g.(block := true)) && Climbs(rest, bounded, g.(block := false)))
              && (!l.cmd.SetCurrent? && !l.cmd.SetNext? && !l.cmd.TestMissing? ==> Climbs(rest, bounded, g))
  {
    assert script[pc..][1..] == script[pc + 1..];
  }

  lemma InvStep(w: World, script: seq<Line>, p: nat, bounded: bool, s: Sys, e: Event)
    requires ScriptInv(script, p, bounded, s)
    ensures var n := Next(w, script, s, e);
            ScriptInv(script, p, bounded, n) && (DisplayInv(s) ==> DisplayInv(n)) && n.reported >= s.reported
  {
    hide Climbs;
    if e.RunLine? && s.pc < |script| && s.dev.status.Running? {
      ClimbsTail(script, s.pc, bounded, Said(s, p));
    }
  }

  lemma {:induction false} InvRun(w: World, script: seq<Line>, p: nat, bounded: bool, s: Sys, es: seq<Event>)
    requires ScriptInv(script, p, bounded, s)
    ensures var end := Run(w, script, s, es);
            ScriptInv(script, p, bounded, end) && (DisplayInv(s) ==> DisplayInv(end))
    decreases |es|
  {
    hide ScriptInv, DisplayInv, Next;
    if es != [] {
      InvStep(w, script, p, bounded, s, es[0]);
      InvRun(w, script, p, bounded, Next(w, script, s, es[0]), es[1..]);
    }
  }

  /** For every interleaving with a climbing script that keeps what it reports at or below
      what it announces, so do the properties from its second line on. And the display shows
      100 only after the script has reported 100, unless 100 or more was left in the progress
      property. */
  lemma {:induction false} ReportedFirst(w: World, script: seq<Line>, p: nat, bounded: bool, s: Sys, start: int,
                                         es: seq<Event>)
    requires Opens(script, p) && Climbs(script, bounded, Start(s.dev.block)) && Unstarted(s, start)
    ensures var end := Run(w, script, s, es);
            && (bounded && end.pc > p + 1 ==> end.dev.current <= end.dev.next)
            && (s.dev.current <= 99 && end.ui.current >= 100 ==> end.reported == 100)
            && (end.pc <= p ==> end.reported == 0)
  {
    assert script[0..] == script;
    assert ScriptInv(script, p, bounded, s);
    InvRun(w, script, p, bounded, s, es);
  }

  // ----- 100 or more left by an earlier run

  /** The display shows 100 although the script has not reported it. */
  predicate ShownEarly(w: World, script: seq<Line>, s: Sys, es: seq<Event>) {
    var end := Run(w, script, s, es);
    end.ui.current >= 100 && end.reported < 100
  }

  /** It does so before the first report after p lines. */
  predicate ShownFirst(w: World, script: seq<Line>, s: Sys, es: seq<Event>, p: nat) {
    var end := Run(w, script, s, es);
    end.ui.current >= 100 && end.pc <= p
  }

  function Repeat(e: Event, n: nat): seq<Event> {
    if n == 0 then [] else [e] + Repeat(e, n - 1)
  }

  /** The display reads both properties in its first round and ticks up to 100. */
  lemma {:induction false} TicksToHundred(w: World, script: seq<Line>, s: Sys) returns (n: nat)
    requires CountersBounded(s.ui) && s.ui.current <= 99 && s.ui.prev >= 100 && !s.done
    ensures var end := Run(w, script, s, Repeat(UiTick, n));
            end.ui.current == 100 && end.done && end.pc == s.pc && end.reported == s.reported
    decreases Distance(s.ui)
  {
    var next := Next(w, script, s, UiTick);
    CloserToHundred(s.ui);
    var m := 0;
    if !next.done {
      m := TicksToHundred(w, script, next);
    }
    n := m + 1;
    assert Repeat(UiTick, n)[1..] == Repeat(UiTick, m);
  }

  lemma CloserToHundred(u: Ui)
    requires CountersBounded(u) && u.current <= 99 && u.prev >= 100
    ensures CountersBounded(Tick(u)) && Tick(u).prev == u.prev && Tick(u).current <= 100
    ensures 0 <= Distance(Tick(u)) + 2 && Distance(Tick(u)) < Distance(u)
  {
  }

  lemma StaleShowsHundred(w: World, script: seq<Line>, p: nat, s: Sys, start: int)
    requires Unstarted(s, start) && s.dev.current >= 100
    ensures exists es :: ShownEarly(w, script, s, es) && ShownFirst(w, script, s, es, p)
  {
    var s1 := Next(w, script, s, ReadCurrent);
    var s2 := Next(w, script, s1, ReadNext);
    var n := TicksToHundred(w, script, s2);
    var es := [ReadCurrent] + ([ReadNext] + Repeat(UiTick, n));
    assert es[1..] == [ReadNext] + Repeat(UiTick, n) && es[1..][1..] == Repeat(UiTick, n);
    assert ShownEarly(w, script, s, es) && ShownFirst(w, script, s, es, p);
  }

  /** So the display can show 100 without a report of 100, and then even before the first
      report, exactly when 100 or more was left in the progress property. */
  lemma HundredShownEarly(w: World, script: seq<Line>, p: nat, s: Sys, start: int)
    requires Opens(script, p) && Climbs(script, false, Start(s.dev.block)) && Unstarted(s, start)
    ensures (exists es :: ShownEarly(w, script, s, es)) <==> s.dev.current >= 100
    ensures (exists es :: ShownFirst(w, script, s, es, p)) <==> s.dev.current >= 100
  {
    hide Climbs, Run;
    if s.dev.current >= 100 {
      StaleShowsHundred(w, script, p, s, start);
    } else {
      forall es
        ensures !ShownEarly(w, script, s, es) && !ShownFirst(w, script, s, es, p)
      {
        ReportedFirst(w, script, p, false, s, start, es);
      }
    }
  }

  // ----- from file sizes to the display

  /** Number of lines before the opening of both scripts. */
  function OpeningAt(opt: Options): nat {
    if opt.beginScript then 1 else 0
  }

  /** The whole pipeline for a full package, sizes to milestones to script to display: the
      display never goes back, and shows 100 too early exactly when it was left by an earlier
      run; the reported value never exceeds the announced one. */
  lemma FullPackageDisplay(w: World, paths: seq<string>, bins: seq<string>, sizes: seq<real>, list: seq<int>,
                           opt: Options, s: Sys, start: int, es: seq<Event>, k: nat)
    requires 0 < |bins| == |paths| == |sizes| && NonNegative(sizes) && Sum(sizes) > 0.0
    requires IsMilestones(sizes, 100 - opt.endProgress, list)
    requires Unstarted(s, start) && k <= |es|
    ensures var script := FullScript(paths, bins, list, opt);
            var mid, end := Run(w, script, s, es[..k]), Run(w, script, s, es);
            && mid.ui.current <= end.ui.current <= 100
            && (0 <= opt.endProgress <= 70 ==>
                  && (s.dev.current <= 99 && end.ui.current == 100 ==> end.reported == 100)
                  && (end.pc > OpeningAt(opt) + 1 ==> end.dev.current <= end.dev.next))
    ensures 0 <= opt.endProgress <= 70 ==>
              ((exists es :: ShownEarly(w, FullScript(paths, bins, list, opt), s, es)) <==> s.dev.current >= 100)
  {
    hide Run, Climbs, ShownEarly, ShownFirst;
    var script, p := FullScript(paths, bins, list, opt), OpeningAt(opt);
    FullPackageClimbs(paths, bins, sizes, list, opt, true, s.dev.block);
    FullPackageClimbs(paths, bins, sizes, list, opt, false, s.dev.block);
    NeverGoesBack(w, script, s, es, k);
    if 0 <= opt.endProgress <= 70 {
      ReportedFirst(w, script, p, true, s, start, es);
      HundredShownEarly(w, script, p, s, start);
    }
  }

  /** And for a differential package. With new partitions the milestones must rise for 100 not
      to be shown too early, which they do exactly under the stated condition; the reported
      value is bounded by the announced one exactly under the condition on the first patch. */
  lemma DiffPackageDisplay(w: World, paths: seq<string>, bins: seq<string>, added: seq<string>,
                           patches: seq<real>, patched: seq<real>, news: seq<real>, list: seq<int>,
                           opt: Options, s: Sys, start: int, es: seq<Event>, k: nat)
    requires 0 < |bins| == |paths| == |patches| && |added| == |news| && NonNegative(patches) && NonNegative(news)
    requires Sum(patches) > 0.0 && (news != [] ==> Sum(patched + news) > 0.0)
    requires IsDiffMilestones(patches, news, Sum(patched + news), 100 - opt.endProgress, list)
    requires Unstarted(s, start) && k <= |es|
    ensures var script := DiffScript(paths, bins, added, list, opt);
            var mid, end := Run(w, script, s, es[..k]), Run(w, script, s, es);
            && mid.ui.current <= end.ui.current <= 100
            && (WeightsRise(patched, news, opt) ==>
                  && (s.dev.current <= 99 && end.ui.current == 100 ==> end.reported == 100)
                  && (news == [] || opt.endProgress == 70 || patches[0] == Sum(patches) ==>
                        end.pc > OpeningAt(opt) + 1 ==> end.dev.current <= end.dev.next))
    ensures WeightsRise(patched, news, opt) ==>
              ((exists es :: ShownEarly(w, DiffScript(paths, bins, added, list, opt), s, es)) <==> s.dev.current >= 100)
  {
    hide Run, Climbs, Sum, WeightsRise, ShownEarly, ShownFirst;
    var script, p := DiffScript(paths, bins, added, list, opt), OpeningAt(opt);
    var bounded := news == [] || opt.endProgress == 70 || patches[0] == Sum(patches);
    DiffPackageClimbs(paths, bins, added, patches, patched, news, list, opt, bounded, s.dev.block);
    DiffPackageClimbs(paths, bins, added, patches, patched, news, list, opt, false, s.dev.block);
    NeverGoesBack(w, script, s, es, k);
    if WeightsRise(patched, news, opt) {
      ReportedFirst(w, script, p, bounded, s, start, es);
      HundredShownEarly(w, script, p, s, start);
    }
  }

  // ----- a report above the announced value

  /** After q lines the script is running, with these values reported and announced. */
  predicate Shows(w: World, d: Device, script: seq<Line>, q: nat, current: int, next: int) {
    && q <= |script|
    && var r := Exec(w, d, script[..q]);
    && r.status == Running && r.current == current && r.next == next
  }

  /** The first new partition is reported without having been announced. */
  lemma FirstNewReported(w: World, d: Device, paths: seq<string>, bins: seq<string>, added: seq<string>,
                              list: seq<int>, opt: Options)
    requires 0 < |bins| == |paths| && |list| == |bins| + |added| && added != []
    requires d.status.Running? && VersionOk(w, opt) && !Entered(w, bins) && w.copyOk(added[0])
    ensures exists q: nat :: Shows(w, d, DiffScript(paths, bins, added, list, opt), q, list[|bins|], list[0])
  {
    hide Header, Tail, Patches;
    var n := |bins|;
    var script := DiffScript(paths, bins, added, list, opt);
    var head, test, patches := Header(opt, list[0]), Plain(TestMissing(bins[n - 1])), Patches(paths, list, n);
    var install, report := Plain(Install(added[0], Target(added[0]))), Plain(SetCurrent(list[n]));
    var front := head + ([test] + (patches + [install, report]));
    FirstAddition(added, list, n, |added|);
    assert front <= script;
    assert script[..|front|] == front;
    HeaderRun(w, d, opt, list[0]);
    ExecConcat(w, d, head, [test] + (patches + [install, report]));
    var e := Exec(w, d, head);
    ExecConcat(w, e, [test], patches + [install, report]);
    ExecOne(w, e, test);
    var f := Exec(w, e, [test]);
    ExecConcat(w, f, patches, [install, report]);
    BlockSkipped(w, f, paths, list, n);
    ExecTwo(w, f, install, report);
    assert Shows(w, d, script, |front|, list[n], list[0]);
  }

  /** So when the patches are skipped, and neither condition on them holds, the reported
      value of a package whose milestones rise overtakes the announced one. */
  lemma NewPartitionOvertakes(w: World, d: Device, paths: seq<string>, bins: seq<string>, added: seq<string>,
                              patches: seq<real>, patched: seq<real>, news: seq<real>, list: seq<int>, opt: Options)
    requires 0 < |bins| == |paths| == |patches| && 0 < |added| == |news| && NonNegative(patches) && NonNegative(news)
    requires Sum(patches) > 0.0 && Sum(patched + news) > 0.0
    requires IsDiffMilestones(patches, news, Sum(patched + news), 100 - opt.endProgress, list)
    requires WeightsRise(patched, news, opt) && opt.endProgress != 70 && patches[0] != Sum(patches)
    requires d.status.Running? && VersionOk(w, opt) && !Entered(w, bins) && w.copyOk(added[0])
    ensures exists q: nat, current: int, next: int ::
              Shows(w, d, DiffScript(paths, bins, added, list, opt), q, current, next) && next < current
  {
    hide Shows, Sum, RestTimesSpan;
    NewPartitionsOvershoot(patches, patched, news, opt.endProgress, list);
    FirstNewIsFirst(patches, news, Sum(patched + news), 100 - opt.endProgress, list);
    FirstNewReported(w, d, paths, bins, added, list, opt);
    assert list[0] < list[|bins|];
  }

  /** A package that does: two patches and one new partition of the same size, without an
      end script. 100 is reported while 65 is announced. */
  lemma OvertakingPackage(w: World, d: Device, paths: seq<string>, bins: seq<string>, added: seq<string>,
                          opt: Options)
    requires |bins| == |paths| == 2 && |added| == 1
    requires d.status.Running? && VersionOk(w, opt) && !Entered(w, bins) && w.copyOk(added[0])
    ensures Sum([1.0, 1.0]) == 2.0 && Sum([1.0, 1.0] + [1.0]) == 3.0
    ensures IsDiffMilestones([1.0, 1.0], [1.0], 3.0, 100, [65, 100, 100])
    ensures exists q: nat :: Shows(w, d, DiffScript(paths, bins, added, [65, 100, 100], opt), q, 100, 65)
  {
    hide Shows;
    var patches, all := [1.0, 1.0], [1.0, 1.0] + [1.0];
    assert SumTo(patches, 0) == 0.0 && SumTo(patches, 1) == 1.0 && Sum(patches) == 2.0;
    assert SumTo(all, 0) == 0.0 && SumTo(all, 1) == 1.0 && SumTo(all, 2) == 2.0 && Sum(all) == 3.0;
    ReachedIs(patches, 2.0, 1, 30.0, 70.0);
    ReachedEnds(patches, 30.0, 70.0);
    assert FloorAt(patches, 2.0, 1, 30.0, 70.0) == 65 && FloorAt(patches, 2.0, 2, 30.0, 70.0) == 100;
    FirstNewReported(w, d, paths, bins, added, [65, 100, 100], opt);
  }

  lemma {:induction false} FirstAddition(added: seq<string>, list: seq<int>, n: nat, k: nat)
    requires 0 < k <= |added| && n + |added| == |list|
    ensures [Plain(Install(added[0], Target(added[0]))), Plain(SetCurrent(list[n]))] <= Additions(added, list, n, k)
  {
    if k > 1 {
      FirstAddition(added, list, n, k - 1);
    } else {
      assert Additions(added, list, n, 0) == [];
    }
  }
}
