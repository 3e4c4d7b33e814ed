/** What the next boot does when power is lost in the middle of one of the
    seven-write sequences, for every cut point of every operation a disciplined
    session can be in. */
module BootTorn {
  import opened BootConfig
  import opened BootProtocol

  function SessionSlot(st: System): SlotId
    requires st.phase.Running?
  {
    st.phase.slot
  }

  /** The store right before `success` in a disciplined run. */
  predicate BeforeSuccess(st: System) {
    Inv(st) && Enabled(st, Confirm)
  }

  predicate BeforeUpdate(st: System) {
    Inv(st) && Enabled(st, StartUpdate)
  }

  predicate BeforeDone(st: System) {
    Inv(st) && Enabled(st, FinishUpdate)
  }

  /** `success` cut anywhere: a working slot is booted. It is the slot that was
      running unless the cut came before its successful flag and the other slot
      could be fallen back to. */
  lemma CutSuccess(st: System, k: nat)
    requires BeforeSuccess(st)
    ensures var s := SessionSlot(st); var cut := Torn(st.cfg, Success(st.cfg), k);
            && Works(st, BootSlot(cut))
            && (BootSlot(cut) == s <==>
                  Get(st.cfg, s).successful || k >= SuccessWrite(s) || !Get(st.cfg, Other(s)).successful)
  {
  }

  /** Position of a slot's successful flag among the seven writes. */
  function SuccessWrite(s: SlotId): nat {
    if s == A then 3 else 6
  }

  /** `update` cut anywhere: the running slot is booted again, and it is still the
      slot a new session takes as current. */
  lemma CutUpdateKeepsRunningSlot(st: System, k: nat)
    requires BeforeUpdate(st)
    ensures var cut := Torn(st.cfg, Update(st.cfg), k);
            && BootSlot(cut) == SessionSlot(st)
            && Works(st, BootSlot(cut))
            && Current(AfterBoot(cut)) == SessionSlot(st)
            && Get(AfterBoot(cut), SessionSlot(st)).successful
  {
  }

  /** Position of a slot's bootable flag among the seven writes. */
  function TrialWrite(target: SlotId): nat {
    if target == A then 2 else 5
  }

  /** `done` cut after `k` writes: the new image is started exactly when its bootable
      flag made it into the store and the trial flag is clear; in every other case
      the running slot is booted again. Whichever is started, if it does not come up
      the boot after it runs the slot that was running when power was lost. */
  lemma CutDone(st: System, k: nat)
    requires BeforeDone(st)
    ensures var s := SessionSlot(st);
            var cut := Torn(st.cfg, Done(st.cfg), k);
            && (BootSlot(cut) == Other(s) <==> k >= TrialWrite(Other(s)) && !st.cfg.trying)
            && (BootSlot(cut) == Other(s) ==> BootSlot(AfterBoot(cut)) == s)
            && (Works(st, BootSlot(cut)) || Works(st, BootSlot(AfterBoot(cut))))
  {
  }

  /** After such a cut the slot that runs is the one the next session works on, with
      exactly one exception: slot B was updating slot A and power failed between the
      first two writes. Then B runs while A is taken as current. */
  lemma CutDoneMislabels(st: System, k: nat)
    requires BeforeDone(st)
    ensures var cut := Torn(st.cfg, Done(st.cfg), k);
            Current(AfterBoot(cut)) != BootSlot(cut) <==> SessionSlot(st) == B && k == 1
  {
  }

  /** The consequence of that exception: the `success` call of the next session marks
      the image that did not run, which is then booted every time, working or not. */
  lemma MislabelledSuccess(st: System)
    requires BeforeDone(st) && SessionSlot(st) == B
    ensures var cut := Torn(st.cfg, Done(st.cfg), 1);
            var d := Success(AfterBoot(cut));
            && BootSlot(cut) == B
            && BootSlot(d) == A && AfterBoot(d) == d
  {
  }

  /** The boot loader's own write. From a store in which a known-good slot exists,
      a boot cut after `k` writes is followed by a boot of a working slot or of the
      same candidate as before, with exactly one exception: slot A's trial failed,
      B is the good slot, and the cut falls after A's active flag is cleared and
      before B's is set. Then no slot is active, every mark is reset, and the failed
      image in A is started from there on. */
  lemma CutBoot(st: System, k: nat)
    requires Inv(st) && st.phase.Off? && HasGood(st.cfg)
    ensures var cut := Torn(st.cfg, AfterBoot(st.cfg), k);
            BootSlot(cut) != BootSlot(st.cfg) && !Get(st.cfg, BootSlot(cut)).successful
            <==> FallbackFromA(st.cfg) && 1 <= k <= 3
    ensures var cut := Torn(st.cfg, AfterBoot(st.cfg), k);
            FallbackFromA(st.cfg) && 1 <= k <= 3 ==>
              && BootSlot(cut) == A && !HasGood(AfterBoot(cut))
              && BootSlot(AfterBoot(cut)) == A && AfterBoot(AfterBoot(cut)) == AfterBoot(cut)
  {
  }

  predicate FallbackFromA(c: Config) {
    TrialFailed(c) && c.a.active && c.b.successful
  }

  // ----- runs with any number of power cuts

  /** A step that completes, or a store-writing step of which only `k` writes land
      before power is lost. */
  datatype Step = Whole(e: Event) | Cut(e: Event, k: nat)

  predicate Writes(e: Event) {
    e.PowerOn? || e.Confirm? || e.StartUpdate? || e.FinishUpdate?
  }

  /** The two cuts that can lose the known-good slot. */
  predicate Hazard(st: System, e: Event, k: nat) {
    || (e.FinishUpdate? && st.phase == Running(B, Updating) && k == 1)
    || (e.PowerOn? && FallbackFromA(st.cfg) && 1 <= k <= 3)
  }

  predicate CanStep(st: System, x: Step) {
    Enabled(st, x.e) && (x.Cut? ==> Writes(x.e))
  }

  /** A step that is not one of those two cuts. */
  predicate SafeStep(st: System, x: Step) {
    CanStep(st, x) && (x.Cut? ==> !Hazard(st, x.e, x.k))
  }

  function After(st: System, x: Step): System
    requires CanStep(st, x)
  {
    match x
    case Whole(e) => Next(st, e)
    case Cut(e, k) => st.(cfg := Torn(st.cfg, Next(st, e).cfg, k), phase := Off)
  }

  predicate CanRun(st: System, xs: seq<Step>)
    decreases |xs|
  {
    xs == [] || (CanStep(st, xs[0]) && CanRun(After(st, xs[0]), xs[1..]))
  }

  /** No step of the run is one of the two cuts. */
  predicate AvoidsHazards(st: System, xs: seq<Step>)
    requires CanRun(st, xs)
    decreases |xs|
  {
    xs == [] || (SafeStep(st, xs[0]) && AvoidsHazards(After(st, xs[0]), xs[1..]))
  }

  /** The images started along a run; a boot that is cut starts none. */
  function Started(st: System, xs: seq<Step>): seq<Boot>
    requires CanRun(st, xs)
    decreases |xs|
  {
    if xs == [] then []
    else
      var first := if xs[0] == Whole(PowerOn)
                   then var s := BootSlot(st.cfg); [Boot(s, Works(st, s))] else [];
      first + Started(After(st, xs[0]), xs[1..])
  }

  /** Both slots can be active after a cut, and a successful slot can lose its
      bootable flag; this is what still holds in every store between two steps. */
  predicate CutInv(st: System) {
    var c := st.cfg;
    && (c.a.successful ==> st.worksA)
    && (c.b.successful ==> st.worksB)
    && (!HasGood(c) ==> !c.b.active && st.worksA)
    && (!c.a.active && !c.b.active ==> st.worksA && !c.b.successful)
    && (c.a.active && Unproven(c.b) ==> c.trying && c.a.successful)
    && (c.a.active && HasGood(c) && !c.a.successful ==> c.a.bootable)
    && CutPhaseInv(st)
  }

  predicate CutPhaseInv(st: System) {
    match st.phase
    case Off => true
    case Hung(s) => NextBootWorks(st)
    case Running(s, stage) =>
      && Works(st, s)
      && (!stage.Finished? ==> Current(st.cfg) == s && Get(st.cfg, s).active)
      && (!stage.Booted? ==> Get(st.cfg, s).successful)
      && (stage.Updating? ==> Get(st.cfg, Other(s)) == CLEARED)
  }

  lemma WholeBootStep(st: System)
    requires CutInv(st) && Enabled(st, PowerOn)
    ensures CutInv(Next(st, PowerOn))
    ensures !Works(st, BootSlot(st.cfg)) ==> NextBootWorks(Next(st, PowerOn))
  {
  }

  lemma WholeOtherStep(st: System, x: Step)
    requires CutInv(st) && SafeStep(st, x) && x.Whole? && x.e != PowerOn
    ensures CutInv(After(st, x))
    ensures NextBootWorks(st) ==> NextBootWorks(After(st, x))
  {
  }

  lemma CutBootStep(st: System, x: Step)
    requires CutInv(st) && SafeStep(st, x) && x.Cut? && x.e == PowerOn
    ensures CutInv(After(st, x))
    ensures NextBootWorks(st) ==> NextBootWorks(After(st, x))
  {
    var c := st.cfg;
    if TrialPending(c) {
      assert After(st, x).cfg == if x.k >= 7 then c.(trying := true) else c;
    } else if TrialFailed(c) {
      CutFallbackStep(st, x.k);
    } else if !c.a.active && !c.b.active {
      CutFactoryStep(st, x.k);
    } else {
      assert Settled(c) == c;
      CutProvenStep(st, x.k);
    }
  }

  lemma CutFallbackStep(st: System, k: nat)
    requires CutInv(st) && SafeStep(st, Cut(PowerOn, k)) && TrialFailed(st.cfg)
    ensures CutInv(After(st, Cut(PowerOn, k)))
    ensures NextBootWorks(st) ==> NextBootWorks(After(st, Cut(PowerOn, k)))
  {
  }

  lemma CutFactoryStep(st: System, k: nat)
    requires CutInv(st) && SafeStep(st, Cut(PowerOn, k)) && !st.cfg.a.active && !st.cfg.b.active
    ensures CutInv(After(st, Cut(PowerOn, k)))
    ensures NextBootWorks(st) ==> NextBootWorks(After(st, Cut(PowerOn, k)))
  {
  }

  lemma CutProvenStep(st: System, k: nat)
    requires CutInv(st) && SafeStep(st, Cut(PowerOn, k)) && Settled(st.cfg) == st.cfg && !TrialPending(st.cfg)
    ensures CutInv(After(st, Cut(PowerOn, k)))
    ensures NextBootWorks(st) ==> NextBootWorks(After(st, Cut(PowerOn, k)))
  {
  }

  lemma CutConfirmStep(st: System, x: Step)
    requires CutInv(st) && SafeStep(st, x) && x.Cut? && x.e == Confirm
    ensures CutInv(After(st, x))
    ensures NextBootWorks(st) ==> NextBootWorks(After(st, x))
  {
  }

  lemma CutUpdateStep(st: System, x: Step)
    requires CutInv(st) && SafeStep(st, x) && x.Cut? && x.e == StartUpdate
    ensures CutInv(After(st, x))
    ensures NextBootWorks(st) ==> NextBootWorks(After(st, x))
  {
  }

  lemma CutDoneStep(st: System, x: Step)
    requires CutInv(st) && SafeStep(st, x) && x.Cut? && x.e == FinishUpdate
    ensures CutInv(After(st, x))
    ensures NextBootWorks(st) ==> NextBootWorks(After(st, x))
  {
  }

  lemma CutInvStep(st: System, x: Step)
    requires CutInv(st) && SafeStep(st, x)
    ensures CutInv(After(st, x))
    ensures x == Whole(PowerOn) && !Works(st, BootSlot(st.cfg)) ==> NextBootWorks(After(st, x))
    ensures x != Whole(PowerOn) && NextBootWorks(st) ==> NextBootWorks(After(st, x))
  {
    if x == Whole(PowerOn) {
      WholeBootStep(st);
    } else if x.Whole? {
      WholeOtherStep(st, x);
    } else {
      match x.e {
        case PowerOn => CutBootStep(st, x);
        case Confirm => CutConfirmStep(st, x);
        case StartUpdate => CutUpdateStep(st, x);
        case FinishUpdate => CutDoneStep(st, x);
      }
    }
  }

  lemma {:induction false} CutRunSafe(st: System, xs: seq<Step>)
    requires CutInv(st) && CanRun(st, xs) && AvoidsHazards(st, xs)
    ensures NoTwoBadInARow(Started(st, xs))
    ensures NextBootWorks(st) && |Started(st, xs)| > 0 ==> Started(st, xs)[0].works
    decreases |xs|
  {
    if xs != [] {
      CutInvStep(st, xs[0]);
      CutRunSafe(After(st, xs[0]), xs[1..]);
    }
  }

  /** With any number of power cuts inside `boot`, `success`, `update` and `done`,
      the two hazards aside, of any two consecutive boots at least one runs a
      working image. */
  lemma {:induction false} CutsKeepTwoBootSafety(worksB: bool, xs: seq<Step>)
    requires CanRun(Factory(true, worksB), xs) && AvoidsHazards(Factory(true, worksB), xs)
    ensures NoTwoBadInARow(Started(Factory(true, worksB), xs))
  {
    CutRunSafe(Factory(true, worksB), xs);
  }

  // ----- the two hazards lose it

  /** One step in front of a run. */
  lemma StepThen(st: System, x: Step, xs: seq<Step>)
    requires CanStep(st, x) && CanRun(After(st, x), xs)
    ensures CanRun(st, [x] + xs)
    ensures Started(st, [x] + xs) ==
            (if x == Whole(PowerOn) then [Boot(BootSlot(st.cfg), Works(st, BootSlot(st.cfg)))] else [])
            + Started(After(st, x), xs)
  {
    assert ([x] + xs)[1..] == xs;
  }

  /** A first update goes to B and is confirmed there; a second one, with an image that
      does not work, is being written to A. */
  const UPDATING_A := System(Config(CLEARED, Slot(true, true, true), false), false, true, Running(B, Updating), false)

  function FirstUpdate(): seq<Step> {
    [Whole(PowerOn), Whole(Confirm), Whole(StartUpdate), Whole(Rewrite(true)), Whole(FinishUpdate)]
  }

  function SecondUpdate(): seq<Step> {
    [Whole(Reset), Whole(PowerOn), Whole(Confirm), Whole(StartUpdate), Whole(Rewrite(false))]
  }

  const FINISHED_B :=
    System(Config(Slot(false, true, true), Slot(true, true, false), false), true, true, Running(A, Finished), false)

  lemma AfterFirstUpdate(worksB: bool, xs: seq<Step>)
    requires CanRun(FINISHED_B, xs)
    ensures CanRun(Factory(true, worksB), FirstUpdate() + xs)
    ensures Started(Factory(true, worksB), FirstUpdate() + xs) == [Boot(A, true)] + Started(FINISHED_B, xs)
  {
    var s0 := Factory(true, worksB);
    var s1 := After(s0, Whole(PowerOn));
    var s2 := After(s1, Whole(Confirm));
    var s3 := After(s2, Whole(StartUpdate));
    var s4 := After(s3, Whole(Rewrite(true)));
    assert After(s4, Whole(FinishUpdate)) == FINISHED_B;
    var x4 := [Whole(FinishUpdate)] + xs;
    var x3 := [Whole(Rewrite(true))] + x4;
    var x2 := [Whole(StartUpdate)] + x3;
    var x1 := [Whole(Confirm)] + x2;
    StepThen(s4, Whole(FinishUpdate), xs);
    StepThen(s3, Whole(Rewrite(true)), x4);
    StepThen(s2, Whole(StartUpdate), x3);
    StepThen(s1, Whole(Confirm), x2);
    StepThen(s0, Whole(PowerOn), x1);
    assert FirstUpdate() + xs == [Whole(PowerOn)] + x1;
  }

  lemma AfterSecondUpdate(xs: seq<Step>)
    requires CanRun(UPDATING_A, xs)
    ensures CanRun(FINISHED_B, SecondUpdate() + xs)
    ensures Started(FINISHED_B, SecondUpdate() + xs) == [Boot(B, true)] + Started(UPDATING_A, xs)
  {
    var s1 := After(FINISHED_B, Whole(Reset));
    var s2 := After(s1, Whole(PowerOn));
    var s3 := After(s2, Whole(Confirm));
    var s4 := After(s3, Whole(StartUpdate));
    assert After(s4, Whole(Rewrite(false))) == UPDATING_A;
    var x4 := [Whole(Rewrite(false))] + xs;
    var x3 := [Whole(StartUpdate)] + x4;
    var x2 := [Whole(Confirm)] + x3;
    var x1 := [Whole(PowerOn)] + x2;
    StepThen(s4, Whole(Rewrite(false)), xs);
    StepThen(s3, Whole(StartUpdate), x4);
    StepThen(s2, Whole(Confirm), x3);
    StepThen(s1, Whole(PowerOn), x2);
    StepThen(FINISHED_B, Whole(Reset), x1);
    assert SecondUpdate() + xs == [Whole(Reset)] + x1;
  }

  /** `done` is cut after its first write, then every session is completed. */
  function LostByDone(): seq<Step> {
    [Cut(FinishUpdate, 1), Whole(PowerOn), Whole(Confirm), Whole(Reset)]
    + [Whole(PowerOn), Whole(Reset), Whole(PowerOn)]
  }

  /** The trial of A hangs and the fallback to B is cut after k writes. */
  function LostByFallback(k: nat): seq<Step> {
    [Whole(FinishUpdate), Whole(Reset), Whole(PowerOn), Whole(Reset)]
    + [Cut(PowerOn, k), Whole(PowerOn)]
  }

  /** Neither hazard can be left out of the claim: from a factory image that works, a run
      with a single one of them starts the image that does not work twice in a row, for the
      only cut of `done` that is one and for each of the three cuts of the boot loader. */
  lemma {:induction false} HazardsLoseSafety(worksB: bool, k: nat)
    requires 1 <= k <= 3
    ensures Hazard(UPDATING_A, FinishUpdate, 1)
    ensures var st, xs := Factory(true, worksB), FirstUpdate() + (SecondUpdate() + LostByDone());
            && CanRun(st, xs) && !NoTwoBadInARow(Started(st, xs))
            && Started(st, xs) == [Boot(A, true), Boot(B, true), Boot(B, true), Boot(A, false), Boot(A, false)]
    ensures var st, xs := Factory(true, worksB), FirstUpdate() + (SecondUpdate() + LostByFallback(k));
            && CanRun(st, xs) && !NoTwoBadInARow(Started(st, xs))
            && Started(st, xs) == [Boot(A, true), Boot(B, true), Boot(A, false), Boot(A, false)]
  {
    hide Started, CanRun, FirstUpdate, SecondUpdate, LostByDone, LostByFallback;
    DoneCut();
    FallbackCut(k);
    AfterSecondUpdate(LostByDone());
    AfterSecondUpdate(LostByFallback(k));
    AfterFirstUpdate(worksB, SecondUpdate() + LostByDone());
    AfterFirstUpdate(worksB, SecondUpdate() + LostByFallback(k));
    var st := Factory(true, worksB);
    var log := Started(st, FirstUpdate() + (SecondUpdate() + LostByDone()));
    var log2 := Started(st, FirstUpdate() + (SecondUpdate() + LostByFallback(k)));
    assert !log[3].works && !log[4].works && !log2[2].works && !log2[3].works;
  }

  lemma DoneCut()
    ensures CanRun(UPDATING_A, LostByDone())
    ensures Started(UPDATING_A, LostByDone()) == [Boot(B, true), Boot(A, false), Boot(A, false)]
  {
    var s1 := After(UPDATING_A, Cut(FinishUpdate, 1));
    var s2 := After(s1, Whole(PowerOn));
    var s3 := After(s2, Whole(Confirm));
    var s4 := After(s3, Whole(Reset));
    var x4 := [Whole(PowerOn), Whole(Reset), Whole(PowerOn)];
    TwoBoots(s4);
    var x3 := [Whole(Reset)] + x4;
    var x2 := [Whole(Confirm)] + x3;
    var x1 := [Whole(PowerOn)] + x2;
    StepThen(s3, Whole(Reset), x4);
    StepThen(s2, Whole(Confirm), x3);
    StepThen(s1, Whole(PowerOn), x2);
    StepThen(UPDATING_A, Cut(FinishUpdate, 1), x1);
    assert LostByDone() == [Cut(FinishUpdate, 1)] + x1;
  }

  /** Two boots of a hanging image that is proven or the only candidate. */
  lemma TwoBoots(st: System)
    requires st.phase.Off? && AfterBoot(st.cfg) == st.cfg && BootSlot(st.cfg) == A && !st.worksA
    ensures CanRun(st, [Whole(PowerOn), Whole(Reset), Whole(PowerOn)])
    ensures Started(st, [Whole(PowerOn), Whole(Reset), Whole(PowerOn)]) == [Boot(A, false), Boot(A, false)]
  {
    var s1 := After(st, Whole(PowerOn));
    var s2 := After(s1, Whole(Reset));
    StepThen(s2, Whole(PowerOn), []);
    StepThen(s1, Whole(Reset), [Whole(PowerOn)] + []);
    StepThen(st, Whole(PowerOn), [Whole(Reset)] + ([Whole(PowerOn)] + []));
    assert [Whole(PowerOn), Whole(Reset), Whole(PowerOn)]
        == [Whole(PowerOn)] + ([Whole(Reset)] + ([Whole(PowerOn)] + []));
  }

  lemma FallbackCut(k: nat)
    requires 1 <= k <= 3
    ensures CanRun(UPDATING_A, LostByFallback(k))
    ensures Started(UPDATING_A, LostByFallback(k)) == [Boot(A, false), Boot(A, false)]
  {
    var s1 := After(UPDATING_A, Whole(FinishUpdate));
    var s2 := After(s1, Whole(Reset));
    var s3 := After(s2, Whole(PowerOn));
    var s4 := After(s3, Whole(Reset));
    var s5 := After(s4, Cut(PowerOn, k));
    assert Hazard(s4, PowerOn, k);
    var x4 := [Cut(PowerOn, k)] + ([Whole(PowerOn)] + []);
    var x3 := [Whole(Reset)] + x4;
    var x2 := [Whole(PowerOn)] + x3;
    var x1 := [Whole(Reset)] + x2;
    StepThen(s5, Whole(PowerOn), []);
    StepThen(s4, Cut(PowerOn, k), [Whole(PowerOn)] + []);
    StepThen(s3, Whole(Reset), x4);
    StepThen(s2, Whole(PowerOn), x3);
    StepThen(s1, Whole(Reset), x2);
    StepThen(UPDATING_A, Whole(FinishUpdate), x1);
    assert LostByFallback(k) == [Whole(FinishUpdate)] + x1;
  }
}
