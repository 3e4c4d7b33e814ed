/** The order of the values a script reports and announces. */
module ScriptOrder {
  import opened Milestones
  import opened OtaScript

  /** Last value reported, last value announced, and whether the block is entered. */
  datatype Gauge = Gauge(shown: int, announced: int, block: bool)

  /** Where a script starts: from 30, with nothing announced. */
  function Start(block: bool): Gauge {
    Gauge(30, 100, block)
  }

  /** Whichever way the block goes: every reported value is between the one before it
      and 100, and every announced value is between the last reported one and 100. With
      `bounded`, no reported value is above the last announced one either. */
  predicate Climbs(s: seq<Line>, bounded: bool, g: Gauge)
    decreases |s|
  {
    s == [] ||
    if s[0].InBlock? && !g.block then Climbs(s[1..], bounded, g)
    else
      match s[0].cmd
      case SetCurrent(v) =>
        g.shown <= v <= 100 && (bounded ==> v <= g.announced) && Climbs(s[1..], bounded, g.(shown := v))
      case SetNext(v) => g.shown <= v <= 100 && Climbs(s[1..], bounded, g.(announced := v))
      case TestMissing(_) =>
        Climbs(s[1..], bounded, g.(block := true)) && Climbs(s[1..], bounded, g.(block := false))
      case _ => Climbs(s[1..], bounded, g)
  }

  // ----- straight pieces of a script

  /** The gauge after a line that does not test for a file. */
  function Note(g: Gauge, l: Line): Gauge {
    if l.InBlock? && !g.block then g
    else if l.cmd.SetCurrent? then g.(shown := l.cmd.value)
    else if l.cmd.SetNext? then g.(announced := l.cmd.value)
    else g
  }

  function After(s: seq<Line>, g: Gauge): Gauge
    decreases |s|
  {
    if s == [] then g else After(s[1..], Note(g, s[0]))
  }

  predicate Straight(s: seq<Line>) {
    forall i :: 0 <= i < |s| ==> !s[i].cmd.TestMissing?
  }

  lemma {:induction false} ClimbsConcat(s: seq<Line>, t: seq<Line>, bounded: bool, g: Gauge)
    requires Straight(s)
    ensures Climbs(s + t, bounded, g) <==> Climbs(s, bounded, g) && Climbs(t, bounded, After(s, g))
    ensures After(s + t, g) == After(t, After(s, g))
    decreases |s|
  {
    if s == [] {
      assert s + t == t;
    } else {
      assert (s + t)[1..] == s[1..] + t;
      ClimbsConcat(s[1..], t, bounded, Note(g, s[0]));
    }
  }

  lemma {:induction false} ClimbsWithin(s: seq<Line>, bounded: bool, g: Gauge)
    requires Climbs(s, bounded, g) && Straight(s) && g.shown <= 100
    ensures After(s, g).shown <= 100
    decreases |s|
  {
    if s != [] {
      ClimbsWithin(s[1..], bounded, Note(g, s[0]));
    }
  }

  /** Lines that neither report nor announce, or that are skipped. */
  predicate Silent(s: seq<Line>, g: Gauge) {
    forall i :: 0 <= i < |s| ==>
      (s[i].InBlock? && !g.block) || !(s[i].cmd.SetCurrent? || s[i].cmd.SetNext? || s[i].cmd.TestMissing?)
  }

  lemma {:induction false} SilentClimbs(s: seq<Line>, bounded: bool, g: Gauge)
    requires Silent(s, g)
    ensures Climbs(s, bounded, g) && After(s, g) == g
    decreases |s|
  {
    if s != [] {
      SilentClimbs(s[1..], bounded, g);
    }
  }

  lemma OneLine(l: Line, bounded: bool, g: Gauge)
    requires !l.cmd.TestMissing?
    ensures After([l], g) == Note(g, l)
    ensures Climbs([l], bounded, g) <==>
              !(l.InBlock? && !g.block) ==>
                && (l.cmd.SetCurrent? ==> g.shown <= l.cmd.value <= 100 && (bounded ==> l.cmd.value <= g.announced))
                && (l.cmd.SetNext? ==> g.shown <= l.cmd.value <= 100)
  {
    assert [l][1..] == [];
  }

  /** Silent lines, a report, and the announcement of the next value. */
  lemma OnePart(quiet: seq<Line>, l: Line, more: seq<Line>, bounded: bool, g: Gauge)
    requires Silent(quiet, g) && Straight(quiet) && l.cmd.SetCurrent? && !(l.InBlock? && !g.block)
    requires more == [] || (|more| == 1 && more[0].cmd.SetNext? && more[0].InBlock? == l.InBlock?)
    ensures var v, s := l.cmd.value, quiet + [l] + more;
            && Straight(s)
            && After(s, g) == Gauge(v, if more == [] then g.announced else more[0].cmd.value, g.block)
            && (Climbs(s, bounded, g) <==>
                  && g.shown <= v <= 100 && (bounded ==> v <= g.announced)
                  && (more != [] ==> v <= more[0].cmd.value <= 100))
  {
    hide Climbs, After;
    SilentClimbs(quiet, bounded, g);
    OneLine(l, bounded, g);
    ClimbsConcat(quiet, [l], bounded, g);
    ClimbsConcat(quiet + [l], more, bounded, g);
    if more == [] {
      SilentClimbs([], bounded, After(quiet + [l], g));
    } else {
      assert more == [more[0]];
      OneLine(more[0], bounded, After(quiet + [l], g));
    }
  }

  // ----- rising lists

  predicate GoodList(list: seq<int>) {
    Rising(list) && InRange(list, 30, 100)
  }

  /** Neighbours rise from position i to below m. */
  predicate Chained(list: seq<int>, i: nat, m: nat) {
    forall k :: i < k < m && k < |list| ==> list[k - 1] <= list[k] <= 100
  }

  lemma ChainedOne(list: seq<int>, i: nat, m: nat)
    requires i < m < |list|
    ensures Chained(list, i, m + 1) <==> Chained(list, i, m) && list[m - 1] <= list[m] <= 100
  {
  }

  lemma ChainStep(list: seq<int>, i: nat, m: nat)
    requires i <= m < |list|
    ensures Chained(list, i, i + 1) && (i < m && Chained(list, i, m + 1) ==> list[m - 1] <= list[m] <= 100)
    ensures Chained(list, i, m + 2) <==>
              Chained(list, i, m + 1) && (m + 1 < |list| ==> list[m] <= list[m + 1] <= 100)
  {
  }

  lemma ChainEnd(list: seq<int>, i: nat)
    ensures Chained(list, i, |list| + 1) <==> Chained(list, i, |list|)
  {
  }

  lemma GoodIfChained(list: seq<int>)
    requires list != []
    ensures GoodList(list) <==> 30 <= list[0] <= 100 && Chained(list, 0, |list|)
  {
    if 30 <= list[0] <= 100 && Chained(list, 0, |list|) {
      forall i, j | 0 <= i <= j < |list|
        ensures 30 <= list[i] <= list[j] <= 100
      {
        Steps(list, 0, i);
        Steps(list, i, j);
      }
    }
  }

  lemma {:induction false} Steps(list: seq<int>, i: nat, j: nat)
    requires i <= j < |list| && Chained(list, 0, |list|)
    ensures list[i] <= list[j] && (i < j ==> list[j] <= 100)
    decreases j
  {
    if i < j {
      Steps(list, i, j - 1);
    }
  }

  /** Reported before part k. */
  function Before(list: seq<int>, k: nat): int
    requires k <= |list|
  {
    if k == 0 then 30 else list[k - 1]
  }

  function Announced(list: seq<int>, k: nat): int
    requires list != []
  {
    if k < |list| then list[k] else list[|list| - 1]
  }

  // ----- the pieces of the two scripts

  lemma HeaderClimbs(opt: Options, first: int, bounded: bool, block: bool)
    ensures Straight(Header(opt, first)) && After(Header(opt, first), Start(block)) == Gauge(30, first, block)
    ensures Climbs(Header(opt, first), bounded, Start(block)) <==> 30 <= first <= 100
  {
    hide Climbs, After;
    var begin := if opt.beginScript then [Plain(UserText)] else [];
    var check := [Plain(if opt.skipVersionCheck then KeepVersion else CheckVersion(opt.version))];
    var current, next := Plain(SetCurrent(30)), Plain(SetNext(first));
    var g := Start(block);
    OnePart(begin, current, [next], bounded, g);
    SilentClimbs(check, bounded, Gauge(30, first, block));
    ClimbsConcat(begin + [current] + [next], check, bounded, g);
    assert Header(opt, first) == begin + [current] + [next] + check;
  }

  lemma GuardsSilent(paths: seq<string>, k: nat, g: Gauge)
    requires k <= |paths|
    ensures Silent(Guards(paths, k), g) && Straight(Guards(paths, k))
  {
  }

  lemma {:induction false} InstallsClimb(paths: seq<string>, bins: seq<string>, list: seq<int>, opt: Options,
                                         k: nat, bounded: bool, block: bool)
    requires k <= |bins| == |paths| == |list| && list != []
    ensures var s, g := Installs(paths, bins, list, opt, k), Gauge(30, list[0], block);
            && Straight(s) && After(s, g) == Gauge(Before(list, k), Announced(list, k), block)
            && (30 <= list[0] <= 100 ==> (Climbs(s, bounded, g) <==> Chained(list, 0, k + 1)))
  {
    hide Climbs, After;
    var s, g := Installs(paths, bins, list, opt, k), Gauge(30, list[0], block);
    if k == 0 {
      SilentClimbs(s, bounded, g);
    } else {
      InstallsClimb(paths, bins, list, opt, k - 1, bounded, block);
      var s0 := Installs(paths, bins, list, opt, k - 1);
      var quiet, l := InstallLines(paths, bins, opt, k - 1), Plain(SetCurrent(list[k - 1]));
      var more := if k < |list| then [Plain(SetNext(list[k]))] else [];
      OnePart(quiet, l, more, bounded, After(s0, g));
      assert s == s0 + (quiet + [l] + more);
      ClimbsConcat(s0, quiet + [l] + more, bounded, g);
      if k < |list| {
        ChainedOne(list, 0, k);
      }
    }
  }

  lemma {:induction false} PatchesClimb(paths: seq<string>, list: seq<int>, k: nat, bounded: bool)
    requires k <= |paths| <= |list| && paths != []
    ensures var s, g := Patches(paths, list, k), Gauge(30, list[0], true);
            && Straight(s)
            && After(s, g) == Gauge(Before(list, k), if k < |paths| then list[k] else list[|paths| - 1], true)
            && (30 <= list[0] <= 100 ==>
                  (Climbs(s, bounded, g) <==> Chained(list, 0, if k < |paths| then k + 1 else k)))
  {
    hide Climbs, After;
    var s, g := Patches(paths, list, k), Gauge(30, list[0], true);
    if k == 0 {
      SilentClimbs(s, bounded, g);
    } else {
      PatchesClimb(paths, list, k - 1, bounded);
      var s0 := Patches(paths, list, k - 1);
      var quiet, l := [InBlock(ApplyPatch(paths[k - 1]))], InBlock(SetCurrent(list[k - 1]));
      var more := if k < |paths| then [InBlock(SetNext(list[k]))] else [];
      OnePart(quiet, l, more, bounded, After(s0, g));
      assert s == s0 + (quiet + [l] + more);
      ClimbsConcat(s0, quiet + [l] + more, bounded, g);
      if k < |paths| {
        ChainedOne(list, 0, k);
      }
    }
  }

  lemma {:induction false} PatchesSkipped(paths: seq<string>, list: seq<int>, k: nat, g: Gauge)
    requires k <= |paths| <= |list| && !g.block
    ensures Silent(Patches(paths, list, k), g) && Straight(Patches(paths, list, k))
  {
    if k > 0 {
      PatchesSkipped(paths, list, k - 1, g);
    }
  }

  function AnnouncedBehind(list: seq<int>, n: nat, k: nat, before: int): int
    requires 0 < k && n + k <= |list|
  {
    if n + k < |list| then list[n + k] else if k == 1 then before else list[n + k - 1]
  }

  /** New partitions after n parts: the first reported value must fit what was last
      reported and, with `bounded`, announced; from then on they are announced. */
  lemma {:induction false} AdditionsClimb(added: seq<string>, list: seq<int>, n: nat, k: nat, bounded: bool, g: Gauge)
    requires 0 < k <= |added| && n + |added| == |list|
    ensures var s := Additions(added, list, n, k);
            && Straight(s)
            && After(s, g) == Gauge(list[n + k - 1], AnnouncedBehind(list, n, k, g.announced), g.block)
            && (Climbs(s, bounded, g) <==>
                  && g.shown <= list[n] <= 100 && (bounded ==> list[n] <= g.announced)
                  && Chained(list, n, n + k + 1))
  {
    hide Climbs, After, Target, Chained;
    var s := Additions(added, list, n, k);
    var s0 := Additions(added, list, n, k - 1);
    var p := n + k - 1;
    var quiet, l := [Plain(Install(added[k - 1], Target(added[k - 1])))], Plain(SetCurrent(list[p]));
    var more := if p + 1 < |list| then [Plain(SetNext(list[p + 1]))] else [];
    assert AdditionLines(added, list, n, k - 1) == quiet + [l] + more;
    assert s == s0 + (quiet + [l] + more);
    if k == 1 {
      assert s0 == [];
      SilentClimbs(s0, bounded, g);
    } else {
      AdditionsClimb(added, list, n, k - 1, bounded, g);
    }
    OnePart(quiet, l, more, bounded, After(s0, g));
    ClimbsConcat(s0, quiet + [l] + more, bounded, g);
    ChainStep(list, n, p);
  }

  lemma TailClimbs(opt: Options, bounded: bool, g: Gauge)
    ensures Climbs(Tail(opt), bounded, g) <==> !opt.endScript || g.shown <= 100
    ensures Straight(Tail(opt)) && After(Tail(opt), g).shown == if opt.endScript then 100 else g.shown
  {
    hide Climbs, After;
    if opt.endScript {
      var a, b, c := Plain(SetNext(100)), Plain(UserText), Plain(SetCurrent(100));
      OneLine(a, bounded, g);
      OnePart([b], c, [], bounded, g.(announced := 100));
      ClimbsConcat([a], [b] + [c] + [], bounded, g);
      assert Tail(opt) == [a] + ([b] + [c] + []);
    } else {
      SilentClimbs([], bounded, g);
    }
  }

  // ----- the scripts

  /** The script of a full package climbs, with every reported value at or below the
      last announced one, exactly when its milestones rise within 30..100. */
  lemma FullScriptClimbs(paths: seq<string>, bins: seq<string>, list: seq<int>, opt: Options, bounded: bool,
                         block: bool)
    requires 0 < |bins| == |paths| == |list|
    ensures Climbs(FullScript(paths, bins, list, opt), bounded, Start(block)) <==> GoodList(list)
    ensures After(FullScript(paths, bins, list, opt), Start(block)).shown ==
            if opt.endScript then 100 else list[|list| - 1]
  {
    hide Climbs, After, Header, Tail, Silent;
    var head, guards := Header(opt, list[0]), Guards(paths, |paths|);
    var installs, tail := Installs(paths, bins, list, opt, |bins|), Tail(opt);
    var g := Gauge(30, list[0], block);
    HeaderClimbs(opt, list[0], bounded, block);
    GuardsSilent(paths, |paths|, g);
    SilentClimbs(guards, bounded, g);
    ClimbsConcat(head, guards, bounded, Start(block));
    InstallsClimb(paths, bins, list, opt, |bins|, bounded, block);
    ClimbsConcat(head + guards, installs, bounded, Start(block));
    ClimbsConcat(head + guards + installs, tail, bounded, Start(block));
    var e := After(head + guards + installs, Start(block));
    TailClimbs(opt, bounded, e);
    GoodIfChained(list);
  }

  /** The script of a differential package: with the reported values only rising, exactly
      when its milestones rise within 30..100. They stay at or below the last announced
      value as well exactly when, besides, there are no new partitions or the milestone of
      the first one is still the first of the list; the value of the first new partition is
      never announced. */
  lemma DiffScriptClimbs(paths: seq<string>, bins: seq<string>, added: seq<string>, list: seq<int>, opt: Options,
                         bounded: bool, block: bool)
    requires 0 < |bins| == |paths| && |list| == |bins| + |added|
    ensures Climbs(DiffScript(paths, bins, added, list, opt), bounded, Start(block)) <==>
              GoodList(list) && (bounded && added != [] ==> list[|bins|] == list[0])
  {
    hide Climbs, After, Header, Tail, Straight, Silent, Chained, Rising, InRange, Announced;
    var head, test := Header(opt, list[0]), Plain(TestMissing(bins[|bins| - 1]));
    var patches, adds := Patches(paths, list, |paths|), Additions(added, list, |bins|, |added|);
    var rest := patches + adds + Tail(opt);
    HeaderClimbs(opt, list[0], bounded, block);
    ClimbsConcat(head, [test] + rest, bounded, Start(block));
    TestedRest(test, rest, bounded, Gauge(30, list[0], block));
    DiffRest(paths, bins, added, list, opt, bounded, true);
    DiffRest(paths, bins, added, list, opt, bounded, false);
    GoodIfChained(list);
    var n := |bins|;
    if GoodList(list) && added != [] {
      Ordered(list, 0, n - 1, n);
    }
    Halves(list, n);
  }

  lemma Ordered(list: seq<int>, i: nat, j: nat, k: nat)
    requires GoodList(list) && i <= j <= k < |list|
    ensures 30 <= list[i] <= list[j] <= list[k] <= 100
  {
  }

  lemma Halves(list: seq<int>, n: nat)
    requires 0 < n <= |list|
    ensures Chained(list, 0, |list|) <==>
              Chained(list, 0, n) && (n < |list| ==> list[n - 1] <= list[n] <= 100 && Chained(list, n, |list|))
  {
  }

  lemma TestedRest(test: Line, rest: seq<Line>, bounded: bool, g: Gauge)
    requires test.cmd.TestMissing? && test.Plain?
    ensures Climbs([test] + rest, bounded, g) <==>
              Climbs(rest, bounded, g.(block := true)) && Climbs(rest, bounded, g.(block := false))
  {
    assert ([test] + rest)[1..] == rest;
  }

  /** Behind the test for the last file, when the patches are applied and when not. */
  lemma DiffRest(paths: seq<string>, bins: seq<string>, added: seq<string>, list: seq<int>, opt: Options,
                 bounded: bool, block: bool)
    requires 0 < |bins| == |paths| && |list| == |bins| + |added|
    ensures var n := |bins|;
            var rest := Patches(paths, list, n) + Additions(added, list, n, |added|) + Tail(opt);
            var last, next := if block then list[n - 1] else 30, if block then list[n - 1] else list[0];
            30 <= list[0] <= 100 ==>
              (Climbs(rest, bounded, Gauge(30, list[0], block)) <==>
                && (block ==> Chained(list, 0, n))
                && (added != [] ==>
                      last <= list[n] <= 100 && (bounded ==> list[n] <= next) && Chained(list, n, |list|)))
  {
    hide Climbs, After, Tail, Silent, Chained;
    var n, g := |bins|, Gauge(30, list[0], block);
    var patches, adds := Patches(paths, list, n), Additions(added, list, n, |added|);
    if block {
      PatchesClimb(paths, list, n, bounded);
    } else {
      PatchesSkipped(paths, list, n, g);
      SilentClimbs(patches, bounded, g);
    }
    var e := After(patches, g);
    if added == [] {
      SilentClimbs(adds, bounded, e);
    } else {
      AdditionsClimb(added, list, n, |added|, bounded, e);
      ChainEnd(list, n);
    }
    ClimbsConcat(patches, adds, bounded, g);
    ClimbsConcat(patches + adds, Tail(opt), bounded, g);
    TailClimbs(opt, bounded, After(patches + adds, g));
    if Climbs(patches + adds, bounded, g) {
      ClimbsWithin(patches + adds, bounded, g);
    }
  }

  // ----- from file sizes

  /** A full package climbs exactly when its end script keeps between 0 and 70. */
  lemma FullPackageClimbs(paths: seq<string>, bins: seq<string>, sizes: seq<real>, list: seq<int>, opt: Options,
                          bounded: bool, block: bool)
    requires 0 < |bins| == |paths| == |sizes| && NonNegative(sizes) && Sum(sizes) > 0.0
    requires IsMilestones(sizes, 100 - opt.endProgress, list)
    ensures Climbs(FullScript(paths, bins, list, opt), bounded, Start(block)) <==> 0 <= opt.endProgress <= 70
  {
    hide Climbs, FullScript;
    MilestonesRise(sizes, opt.endProgress, list);
    FullScriptClimbs(paths, bins, list, opt, bounded, block);
  }

  /** The share kept for the end script is between 0 and 70, and the weight condition on new
      partitions holds if there are any. */
  predicate WeightsRise(patched: seq<real>, news: seq<real>, opt: Options) {
    && 0 <= opt.endProgress <= 70
    && (news != [] ==> 0.0 <= RestTimesSpan(news, 100 - opt.endProgress) < Sum(patched + news))
  }

  /** A differential package reports rising values exactly when that is so. They stay at or
      below the announced value as well exactly when, if there are new partitions, the first
      patch has all the weight of the patches or the end script keeps their whole range. */
  lemma DiffPackageClimbs(paths: seq<string>, bins: seq<string>, added: seq<string>, patches: seq<real>,
                          patched: seq<real>, news: seq<real>, list: seq<int>, opt: Options, bounded: bool,
                          block: bool)
    requires 0 < |bins| == |paths| == |patches| && |added| == |news| && NonNegative(patches) && NonNegative(news)
    requires Sum(patches) > 0.0 && (news != [] ==> Sum(patched + news) > 0.0)
    requires IsDiffMilestones(patches, news, Sum(patched + news), 100 - opt.endProgress, list)
    ensures Climbs(DiffScript(paths, bins, added, list, opt), bounded, Start(block)) <==>
              && WeightsRise(patched, news, opt)
              && (bounded && news != [] ==> opt.endProgress == 70 || patches[0] == Sum(patches))
  {
    hide Climbs, DiffScript, Sum, RestTimesSpan;
    DiffScriptClimbs(paths, bins, added, list, opt, bounded, block);
    if news == [] {
      NoNewPartitions(patches, Sum(patched + news), 100 - opt.endProgress, list);
      MilestonesRise(patches, opt.endProgress, list);
    } else {
      NewPartitionsOvershoot(patches, patched, news, opt.endProgress, list);
      if GoodList(list) {
        FirstNewIsFirst(patches, news, Sum(patched + news), 100 - opt.endProgress, list);
      }
    }
  }
}
