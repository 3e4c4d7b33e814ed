/** Runs of the A/B update protocol: disciplined sessions of any length, with a
    reset possible after every step. Whether a slot's image works is part of the
    state but is never read by bootctl; it is only used to state what is safe. */
module BootProtocol {
  import opened BootConfig

  /** Booted: came up, not confirmed yet. Confirmed: `success` was called.
      Updating: `update` was called, the other slot may be rewritten.
      Finished: `done` was called, only a reset may follow. */
  datatype Stage = Booted | Confirmed | Updating | Finished

  datatype Phase = Off | Hung(slot: SlotId) | Running(slot: SlotId, stage: Stage)

  /** `fellBack` records whether any boot so far withdrew a used-up trial in favour
      of a successful slot. */
  datatype System = System(cfg: Config, worksA: bool, worksB: bool, phase: Phase, fellBack: bool)

  datatype Event =
    | PowerOn | Confirm | StartUpdate | Rewrite(works: bool) | FinishUpdate | Reset

  datatype Boot = Boot(slot: SlotId, works: bool)

  function Works(st: System, s: SlotId): bool {
    if s == A then st.worksA else st.worksB
  }

  function Factory(worksA: bool, worksB: bool): System {
    System(FACTORY, worksA, worksB, Off, false)
  }

  /** What the disciplined session allows next. */
  predicate Enabled(st: System, e: Event) {
    match e
    case PowerOn => st.phase.Off?
    case Confirm => st.phase.Running? && !st.phase.stage.Finished?
    case StartUpdate => st.phase.Running? && (st.phase.stage.Confirmed? || st.phase.stage.Updating?)
    case Rewrite(_) => st.phase.Running? && st.phase.stage.Updating?
    case FinishUpdate => st.phase.Running? && st.phase.stage.Updating?
    case Reset => !st.phase.Off?
  }

  function Next(st: System, e: Event): System
    requires Enabled(st, e)
  {
    match e
    case PowerOn =>
      var s := BootSlot(st.cfg);
      st.(cfg := AfterBoot(st.cfg),
          phase := if Works(st, s) then Running(s, Booted) else Hung(s),
          fellBack := st.fellBack || (TrialFailed(st.cfg) && HasGood(st.cfg)))
    case Confirm =>
      st.(cfg := Success(st.cfg),
          phase := if st.phase.stage.Booted? then st.phase.(stage := Confirmed) else st.phase)
    case StartUpdate => st.(cfg := Update(st.cfg), phase := st.phase.(stage := Updating))
    case Rewrite(w) =>
      if st.phase.slot == A then st.(worksB := w) else st.(worksA := w)
    case FinishUpdate => st.(cfg := Done(st.cfg), phase := st.phase.(stage := Finished))
    case Reset => st.(phase := Off)
  }

  predicate Valid(st: System, es: seq<Event>)
    decreases |es|
  {
    es == [] || (Enabled(st, es[0]) && Valid(Next(st, es[0]), es[1..]))
  }

  function Run(st: System, es: seq<Event>): System
    requires Valid(st, es)
    decreases |es|
  {
    if es == [] then st else Run(Next(st, es[0]), es[1..])
  }

  /** The boots of a run, in order. */
  function Boots(st: System, es: seq<Event>): seq<Boot>
    requires Valid(st, es)
    decreases |es|
  {
    if es == [] then []
    else
      var first := if es[0] == PowerOn
                   then var s := BootSlot(st.cfg); [Boot(s, Works(st, s))] else [];
      first + Boots(Next(st, es[0]), es[1..])
  }

  // ----- the invariant of every run

  predicate PhaseInv(st: System) {
    match st.phase
    case Off => true
    case Hung(s) =>
      Current(st.cfg) == s && !Works(st, s) && st.cfg.trying
    case Running(s, stage) =>
      && Works(st, s)
      && (stage.Finished? || Current(st.cfg) == s)
      && (stage.Booted? ==> Get(st.cfg, s).successful || st.cfg.trying)
      && (!stage.Booted? ==> Get(st.cfg, s).successful)
      && (stage.Updating? ==> Get(st.cfg, Other(s)) == CLEARED)
      && (stage.Finished? ==> Current(st.cfg) == Other(s) && !Get(st.cfg, Other(s)).successful)
  }

  /** A fallback leaves the trial flag set and one successful slot, which stays the
      only slot that ever runs. */
  predicate Stuck(st: System, good: SlotId) {
    && st.cfg.trying
    && Get(st.cfg, good).successful
    && !Get(st.cfg, Other(good)).successful
    && (st.phase.Running? ==> st.phase.slot == good)
  }

  predicate Inv(st: System) {
    && ((st.cfg == FACTORY && st.phase.Off? && !st.fellBack) || WellFormed(st.cfg))
    && (st.cfg.a.successful ==> st.worksA)
    && (st.cfg.b.successful ==> st.worksB)
    && (!HasGood(st.cfg) ==> !st.cfg.b.active && (st.cfg.a.active ==> st.cfg.trying))
    && PhaseInv(st)
    && (HasGood(st.cfg) && st.cfg.trying && Get(st.cfg, Current(st.cfg)).successful ==> st.fellBack)
    && (st.fellBack ==> Stuck(st, A) || Stuck(st, B))
  }

  lemma InvStep(st: System, e: Event)
    requires Inv(st) && Enabled(st, e)
    ensures Inv(Next(st, e))
    ensures HasGood(st.cfg) ==> HasGood(Next(st, e).cfg)
  {
    if e == PowerOn {
      BootKeepsInv(st);
    } else {
      SessionKeepsInv(st, e);
    }
  }

  lemma BootKeepsInv(st: System)
    requires Inv(st) && Enabled(st, PowerOn)
    ensures Inv(Next(st, PowerOn))
    ensures HasGood(st.cfg) ==> HasGood(Next(st, PowerOn).cfg)
  {
  }

  lemma SessionKeepsInv(st: System, e: Event)
    requires Inv(st) && Enabled(st, e) && e != PowerOn
    ensures Inv(Next(st, e))
    ensures HasGood(st.cfg) ==> HasGood(Next(st, e).cfg)
  {
  }

  lemma {:induction false} InvRun(st: System, es: seq<Event>)
    requires Inv(st) && Valid(st, es)
    ensures Inv(Run(st, es))
    ensures HasGood(st.cfg) ==> HasGood(Run(st, es).cfg)
    decreases |es|
  {
    if es != [] {
      InvStep(st, es[0]);
      InvRun(Next(st, es[0]), es[1..]);
    }
  }

  /** In every run from the factory, a successful mark only ever sits on a working
      image, the current slot is the one that runs, and a known-good slot, once
      there, is never lost. */
  lemma {:induction false} SuccessfulImpliesWorks(worksA: bool, worksB: bool, es: seq<Event>, k: nat)
    requires Valid(Factory(worksA, worksB), es)
    requires k <= |es|
    ensures var st := Run(Factory(worksA, worksB), es);
            && (forall s :: Get(st.cfg, s).successful ==> Works(st, s))
            && (st.phase.Running? && !st.phase.stage.Finished? ==> Current(st.cfg) == st.phase.slot)
            && (!st.phase.Off? ==> WellFormed(st.cfg))
    ensures Valid(Factory(worksA, worksB), es[..k])
    ensures HasGood(Run(Factory(worksA, worksB), es[..k]).cfg) ==>
              HasGood(Run(Factory(worksA, worksB), es).cfg)
  {
    var st := Factory(worksA, worksB);
    InvRun(st, es);
    RunSplit(st, es, k);
    InvRun(st, es[..k]);
    InvRun(Run(st, es[..k]), es[k..]);
  }

  lemma {:induction false} RunSplit(st: System, es: seq<Event>, k: nat)
    requires Valid(st, es) && k <= |es|
    ensures Valid(st, es[..k]) && Valid(Run(st, es[..k]), es[k..])
    ensures Run(Run(st, es[..k]), es[k..]) == Run(st, es)
    ensures Boots(st, es) == Boots(st, es[..k]) + Boots(Run(st, es[..k]), es[k..])
    decreases k
  {
    if k == 0 {
      assert es[..k] == [] && es[k..] == es;
    } else {
      RunSplit(Next(st, es[0]), es[1..], k - 1);
      assert es[..k][0] == es[0] && es[..k][1..] == es[1..][..k - 1];
      assert es[1..][k - 1..] == es[k..];
    }
  }

  /** The boot policy in the words of the documentation: the active slot is started
      unless its trial is used up; then the other slot is, provided it is successful
      or is slot A. A used-up trial of slot A with nothing successful starts A again. */
  lemma BootPolicy(c: Config)
    requires WellFormed(c)
    ensures var s := Current(c);
            && (BootSlot(c) == s <==>
                  Get(c, s).successful || !c.trying || (s == A && !c.b.successful))
            && Current(AfterBoot(c)) == BootSlot(c)
            && (TrialFailed(c) && BootSlot(c) != s ==> !Get(AfterBoot(c), s).bootable)
  {
  }

  // ----- at most one bad boot in a row

  /** No slot that fails to boot can be selected next. */
  predicate NextBootWorks(st: System) {
    !st.phase.Running? && Works(st, BootSlot(st.cfg))
  }

  predicate KnownGood(st: System) {
    HasGood(st.cfg) || st.worksA
  }

  predicate NoTwoBadInARow(log: seq<Boot>) {
    forall i :: 0 <= i < |log| - 1 ==> log[i].works || log[i + 1].works
  }

  /** Before anything is confirmed only slot A is ever started, so a working
      factory image plays the part of the known-good slot. */
  lemma KnownGoodStep(st: System, e: Event)
    requires Inv(st) && Enabled(st, e) && KnownGood(st)
    ensures KnownGood(Next(st, e))
    ensures e == PowerOn && !Works(st, BootSlot(st.cfg)) ==> NextBootWorks(Next(st, e))
    ensures e != PowerOn && NextBootWorks(st) ==> NextBootWorks(Next(st, e))
  {
  }

  lemma {:induction false} NoTwoBadBoots(st: System, es: seq<Event>)
    requires Inv(st) && Valid(st, es) && KnownGood(st)
    ensures NoTwoBadInARow(Boots(st, es))
    ensures NextBootWorks(st) && |Boots(st, es)| > 0 ==> Boots(st, es)[0].works
    decreases |es|
  {
    if es != [] {
      InvStep(st, es[0]);
      KnownGoodStep(st, es[0]);
      NoTwoBadBoots(Next(st, es[0]), es[1..]);
    }
  }

  /** Whatever images are written and wherever resets fall: of any two consecutive
      boots at least one runs a working image. */
  lemma {:induction false} AnyTwoBootsOneWorks(worksB: bool, es: seq<Event>)
    requires Valid(Factory(true, worksB), es)
    ensures NoTwoBadInARow(Boots(Factory(true, worksB), es))
  {
    NoTwoBadBoots(Factory(true, worksB), es);
  }

  // ----- a failed trial is final

  lemma {:induction false} StuckForever(st: System, good: SlotId, es: seq<Event>)
    requires Inv(st) && Valid(st, es) && Stuck(st, good)
    ensures Stuck(Run(st, es), good)
    ensures forall i :: 0 <= i < |Boots(st, es)| ==> Boots(st, es)[i] == Boot(good, true)
    decreases |es|
  {
    if es != [] {
      InvStep(st, es[0]);
      assert Stuck(Next(st, es[0]), good);
      StuckForever(Next(st, es[0]), good, es[1..]);
    }
  }

  /** Once a trial boot has hung while the other slot was successful, every later
      boot of every continuation runs that same slot, through any number of further
      `update`/`done` pairs. */
  lemma {:induction false} FailedTrialIsFinal(st: System, es: seq<Event>)
    requires Inv(st) && st.phase.Hung? && HasGood(st.cfg) && Valid(st, es)
    ensures forall i :: 0 <= i < |Boots(st, es)| ==> Boots(st, es)[i] == Boot(Other(st.phase.slot), true)
  {
    StuckForever(st, Other(st.phase.slot), es);
  }

  // ----- when a finished update is tried

  /** After `done`, the next boot starts the new image exactly when the trial flag
      is clear. Started that way it gets one boot: a reset before `success` goes
      back to the old slot, whereas `success` keeps it. */
  lemma FinishedUpdateGetsOneTrial(st: System)
    requires Inv(st) && st.phase.Running? && st.phase.stage.Finished?
    ensures var s := st.phase.slot; var off := Next(st, Reset); var up := Next(off, PowerOn);
            && (BootSlot(off.cfg) == Other(s) <==> !st.cfg.trying)
            && (BootSlot(off.cfg) == s <==> st.cfg.trying)
            && (!st.cfg.trying ==> BootSlot(up.cfg) == s)
            && (up.phase.Running? && !st.cfg.trying ==>
                  BootSlot(Next(up, Confirm).cfg) == Other(s) && !Next(up, Confirm).cfg.trying)
  {
  }

  /** Over whole runs: a finished update is tried if and only if no boot so far has
      fallen back from a failed trial. This is weaker than the usage text, by which
      every finished update is started on the next reboot. */
  lemma {:induction false} TrialIffNeverFellBack(worksA: bool, worksB: bool, es: seq<Event>)
    requires Valid(Factory(worksA, worksB), es)
    requires var p := Run(Factory(worksA, worksB), es).phase; p.Running? && p.stage.Finished?
    ensures var st := Run(Factory(worksA, worksB), es);
            BootSlot(st.cfg) == Other(st.phase.slot) <==> !st.fellBack
  {
    InvRun(Factory(worksA, worksB), es);
    ConfirmedTrialFlag(Factory(worksA, worksB), es);
  }

  /** In a confirmed session the trial flag says exactly whether a fallback happened. */
  lemma {:induction false} ConfirmedTrialFlag(st: System, es: seq<Event>)
    requires Inv(st) && Valid(st, es) && FlagInv(st)
    ensures FlagInv(Run(st, es))
    decreases |es|
  {
    if es != [] {
      InvStep(st, es[0]);
      ConfirmedTrialFlag(Next(st, es[0]), es[1..]);
    }
  }

  predicate FlagInv(st: System) {
    st.phase.Running? && !st.phase.stage.Booted? ==> (st.cfg.trying <==> st.fellBack)
  }

  /** The gap to the usage text, on a concrete run: the first update hangs and is
      withdrawn, and a second update with a working image is finished but never tried. */
  lemma {:induction false} SecondUpdateNeverTried()
    ensures var s0 := Factory(true, true);
            var u1 := Next(Next(Next(s0, PowerOn), Confirm), StartUpdate);
            var s1 := Next(Next(Next(u1, Rewrite(false)), FinishUpdate), Reset);
            var s2 := Next(Next(s1, PowerOn), Reset);
            var u3 := Next(Next(Next(s2, PowerOn), Confirm), StartUpdate);
            var s3 := Next(Next(Next(u3, Rewrite(true)), FinishUpdate), Reset);
            && BootSlot(s0.cfg) == A
            && BootSlot(s1.cfg) == B && !s1.worksB
            && BootSlot(s2.cfg) == A
            && BootSlot(s3.cfg) == A && s3.worksB
  {
  }
}
