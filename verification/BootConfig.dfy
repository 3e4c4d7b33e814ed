/** The seven persistent boot flags of bootctl and the transitions of its five
    operations, written once for either slot. */
module BootConfig {

  datatype SlotId = A | B

  datatype Slot = Slot(active: bool, bootable: bool, successful: bool)

  /** struct bootctl_s: two slots and the trial flag. */
  datatype Config = Config(a: Slot, b: Slot, trying: bool)

  const CLEARED := Slot(false, false, false)

  /** What an empty key-value store reads as. */
  const FACTORY := Config(CLEARED, CLEARED, false)

  function Other(s: SlotId): SlotId {
    if s == A then B else A
  }

  function Get(c: Config, s: SlotId): Slot {
    if s == A then c.a else c.b
  }

  function Put(c: Config, s: SlotId, v: Slot): Config {
    if s == A then c.(a := v) else c.(b := v)
  }

  /** The slot the mutating operations treat as current: A when active, otherwise B. */
  function Current(c: Config): SlotId {
    if c.a.active then A else B
  }

  function Update(c: Config): Config {
    Put(c, Other(Current(c)), CLEARED)
  }

  function Done(c: Config): Config {
    var s := Current(c);
    var o := Other(s);
    var c1 := Put(c, o, Get(c, o).(bootable := true, active := true));
    Put(c1, s, Get(c1, s).(active := false))
  }

  function Success(c: Config): Config {
    var s := Current(c);
    if Get(c, s).successful then c
    else Put(c, s, Get(c, s).(successful := true)).(trying := false)
  }

  /** A slot whose image has been marked bootable but has never confirmed a boot. */
  predicate Unproven(v: Slot) {
    v.active && v.bootable && !v.successful
  }

  predicate HasGood(c: Config) {
    c.a.successful || c.b.successful
  }

  /** The slot whose trial is pending, slot A first. */
  function Candidate(c: Config): (s: SlotId)
    requires Unproven(c.a) || Unproven(c.b)
  {
    if Unproven(c.a) then A else B
  }

  /** A trial is pending but the trial flag says it has been used up. */
  predicate TrialFailed(c: Config) {
    (c.a.active || c.b.active) && (Unproven(c.a) || Unproven(c.b)) && c.trying
  }

  predicate TrialPending(c: Config) {
    (c.a.active || c.b.active) && (Unproven(c.a) || Unproven(c.b)) && !c.trying
  }

  /** The store handed to the choice of a proven slot: factory defaults when no
      slot is active, the exhausted candidate withdrawn when its trial failed. */
  function Settled(c: Config): Config {
    if !c.a.active && !c.b.active then Config(Slot(true, true, false), CLEARED, true)
    else if TrialFailed(c) then
      var s := Candidate(c);
      Put(c, s, Get(c, s).(active := false, bootable := false))
    else c
  }

  /** Preference among slots when no trial is run. */
  function Proven(c: Config): SlotId {
    if c.a.active && c.a.successful then A
    else if c.b.active && c.b.successful then B
    else if c.a.successful then A
    else if c.b.successful then B
    else A
  }

  /** Slot started by the boot loader. */
  function BootSlot(c: Config): SlotId {
    if TrialPending(c) then Candidate(c) else Proven(Settled(c))
  }

  /** Store left by the boot loader. */
  function AfterBoot(c: Config): Config {
    if TrialPending(c) then c.(trying := true)
    else
      var d := Settled(c);
      var s := Proven(d);
      var v := Get(d, s);
      if v.active && v.successful then d
      else if s == A && v.successful then Put(d, s, v.(active := true))
      else Put(d, s, v.(active := true, bootable := true))
  }

  /** The store after the first `k` of the seven property writes of `to` over `from`. */
  function Torn(from: Config, to: Config, k: nat): Config {
    Config(
      Slot(if k >= 1 then to.a.active else from.a.active,
           if k >= 2 then to.a.bootable else from.a.bootable,
           if k >= 3 then to.a.successful else from.a.successful),
      Slot(if k >= 4 then to.b.active else from.b.active,
           if k >= 5 then to.b.bootable else from.b.bootable,
           if k >= 6 then to.b.successful else from.b.successful),
      if k >= 7 then to.trying else from.trying)
  }

  /** The flags in the order in which they are written. */
  function Flags(c: Config): seq<bool> {
    [c.a.active, c.a.bootable, c.a.successful, c.b.active, c.b.bootable, c.b.successful, c.trying]
  }

  /** The first k writes replace the first k flags, and the last one completes the store. */
  lemma TornFlags(from: Config, to: Config, k: nat, i: nat)
    requires i < 7
    ensures Flags(Torn(from, to, k))[i] <==> if i < k then Flags(to)[i] else Flags(from)[i]
    ensures k >= 7 ==> Torn(from, to, k) == to
  {
  }

  // ----- what an operation leaves alone

  /** A boot from any store in which a slot is active. No successful flag changes. The slots
      other than the one started are left alone, but for the candidate of a failed trial,
      which is withdrawn; it is the only slot that can lose its bootable flag. The slot
      started is active afterwards. Nothing but the trial flag changes when a trial is run,
      and nothing at all when an active and successful slot is started without a failed
      trial. */
  lemma BootFrame(c: Config)
    requires c.a.active || c.b.active
    ensures forall s :: Get(AfterBoot(c), s).successful == Get(c, s).successful
    ensures forall s :: s != BootSlot(c) && !(TrialFailed(c) && s == Candidate(c)) ==> Get(AfterBoot(c), s) == Get(c, s)
    ensures TrialFailed(c) && Candidate(c) != BootSlot(c) ==>
              Get(AfterBoot(c), Candidate(c)) == Get(c, Candidate(c)).(active := false, bootable := false)
    ensures forall s :: Get(c, s).bootable && !Get(AfterBoot(c), s).bootable ==>
              TrialFailed(c) && s == Candidate(c) && s != BootSlot(c)
    ensures var v, d := Get(c, BootSlot(c)), Get(AfterBoot(c), BootSlot(c));
            && d.active && (d.bootable <==> v.bootable || !v.successful || (!v.active && BootSlot(c) == B))
    ensures !TrialPending(c) ==> AfterBoot(c).trying == c.trying
    ensures TrialPending(c) ==> AfterBoot(c) == c.(trying := true)
    ensures !TrialFailed(c) && Get(c, BootSlot(c)).active && Get(c, BootSlot(c)).successful && !TrialPending(c) ==>
              AfterBoot(c) == c
  {
  }

  /** When slot B is started, in terms of the flags. */
  lemma StartsB(c: Config)
    ensures BootSlot(c) == B <==>
              && (c.a.active || c.b.active)
              && if (Unproven(c.a) || Unproven(c.b)) && !c.trying then !Unproven(c.a)
                 else c.b.successful && !(c.a.active && c.a.successful) && (c.b.active || !c.a.successful)
  {
  }

  /** `success` sets one flag of the current slot and clears the trial flag, or nothing. */
  lemma SuccessFrame(c: Config)
    ensures var d, s := Success(c), Current(c);
            && Get(d, s).successful && Get(d, Other(s)) == Get(c, Other(s))
            && Get(d, s).active == Get(c, s).active && Get(d, s).bootable == Get(c, s).bootable
            && (d.trying <==> c.trying && Get(c, s).successful)
  {
  }

  /** `update` leaves the current slot and the trial flag alone. */
  lemma UpdateFrame(c: Config)
    ensures var d, s := Update(c), Current(c);
            && Get(d, s) == Get(c, s) && d.trying == c.trying
            && !Get(d, Other(s)).active && !Get(d, Other(s)).bootable && !Get(d, Other(s)).successful
  {
  }

  /** `done` moves the active mark, makes its new slot bootable and nothing else. */
  lemma DoneFrame(c: Config)
    ensures var d, s := Done(c), Current(c);
            && !Get(d, s).active && Get(d, Other(s)).active
            && Get(d, s).bootable == Get(c, s).bootable && Get(d, Other(s)).bootable
            && d.a.successful == c.a.successful && d.b.successful == c.b.successful && d.trying == c.trying
  {
  }

  // ----- orders of operations without any discipline

  datatype Op = OpBoot | OpUpdate | OpDone | OpSuccess

  function Apply(c: Config, op: Op): Config {
    match op
    case OpBoot => AfterBoot(c)
    case OpUpdate => Update(c)
    case OpDone => Done(c)
    case OpSuccess => Success(c)
  }

  function ApplyAll(c: Config, ops: seq<Op>): Config
    decreases |ops|
  {
    if ops == [] then c else ApplyAll(Apply(c, ops[0]), ops[1..])
  }

  /** Exactly one slot is active; the active slot and every successful slot are bootable. */
  predicate WellFormed(c: Config) {
    && c.a.active != c.b.active
    && (c.a.active || c.a.successful ==> c.a.bootable)
    && (c.b.active || c.b.successful ==> c.b.bootable)
  }

  /** The first boot from any store in which no slot is active yields a well-formed
      store, and from then on every order of operations keeps it. */
  lemma {:induction false} AnyOrderKeepsWellFormed(c: Config, ops: seq<Op>)
    requires WellFormed(c) || (!c.a.active && !c.b.active && |ops| > 0 && ops[0] == OpBoot)
    ensures WellFormed(ApplyAll(c, ops))
    decreases |ops|
  {
    if ops != [] {
      ApplyKeepsWellFormed(c, ops[0]);
      hide Apply, WellFormed;
      AnyOrderKeepsWellFormed(Apply(c, ops[0]), ops[1..]);
    }
  }

  lemma ApplyKeepsWellFormed(c: Config, op: Op)
    requires WellFormed(c) || (!c.a.active && !c.b.active && op == OpBoot)
    ensures WellFormed(Apply(c, op))
  {
  }

  /** Each `update` comes directly after a `success`; `confirmed` says that the operation
      before these was one. */
  predicate SuccessBeforeUpdate(ops: seq<Op>, confirmed: bool) {
    && (ops != [] && ops[0] == OpUpdate ==> confirmed)
    && (forall i :: 0 < i < |ops| && ops[i] == OpUpdate ==> ops[i - 1] == OpSuccess)
  }

  /** In every such order, a successful slot once present is never lost. */
  lemma {:induction false} SuccessfulSlotKept(c: Config, ops: seq<Op>, j: nat, k: nat)
    requires WellFormed(c) && SuccessBeforeUpdate(ops, false) && j <= k <= |ops|
    requires HasGood(ApplyAll(c, ops[..j]))
    ensures HasGood(ApplyAll(c, ops[..k]))
  {
    KeptFrom(c, ops, false, j, k);
  }

  lemma {:induction false} KeptFrom(c: Config, ops: seq<Op>, confirmed: bool, j: nat, k: nat)
    requires WellFormed(c) && (confirmed ==> Get(c, Current(c)).successful)
    requires SuccessBeforeUpdate(ops, confirmed) && j <= k <= |ops| && HasGood(ApplyAll(c, ops[..j]))
    ensures HasGood(ApplyAll(c, ops[..k]))
    decreases k
  {
    if k > 0 {
      var d, op := Apply(c, ops[0]), ops[0];
      ApplyKeepsWellFormed(c, op);
      ApplyKeepsGood(c, op, confirmed);
      RestConfirmed(ops, confirmed);
      hide Apply, WellFormed, HasGood, Current, SuccessBeforeUpdate;
      assert ops[..k][1..] == ops[1..][..k - 1];
      if j == 0 {
        assert HasGood(d);
        assert ops[..j] == [] && ops[1..][..0] == [] && ApplyAll(d, []) == d;
        KeptFrom(d, ops[1..], op == OpSuccess, 0, k - 1);
      } else {
        assert ops[..j][1..] == ops[1..][..j - 1];
        KeptFrom(d, ops[1..], op == OpSuccess, j - 1, k - 1);
      }
    }
  }

  lemma RestConfirmed(ops: seq<Op>, confirmed: bool)
    requires ops != [] && SuccessBeforeUpdate(ops, confirmed)
    ensures SuccessBeforeUpdate(ops[1..], ops[0] == OpSuccess)
  {
    var rest := ops[1..];
    assert rest != [] && rest[0] == OpUpdate ==> ops[1] == OpUpdate;
    forall i | 0 < i < |rest| && rest[i] == OpUpdate
      ensures rest[i - 1] == OpSuccess
    {
      assert ops[i + 1] == OpUpdate;
    }
  }

  lemma ApplyKeepsGood(c: Config, op: Op, confirmed: bool)
    requires WellFormed(c) && (confirmed ==> Get(c, Current(c)).successful) && (op == OpUpdate ==> confirmed)
    ensures HasGood(c) ==> HasGood(Apply(c, op))
    ensures op == OpSuccess ==> Get(Apply(c, op), Current(Apply(c, op))).successful
  {
  }

  /** The booted slot is the active one, and `update` leaves that slot untouched
      until `done` moves the active mark. */
  lemma {:induction false} UpdateSparesBootedSlot(c: Config, ops: seq<Op>)
    requires WellFormed(c)
    requires forall i :: 0 <= i < |ops| ==> ops[i] == OpUpdate || ops[i] == OpSuccess
    ensures var d := ApplyAll(AfterBoot(c), ops);
            && Current(d) == BootSlot(c)
            && Get(d, BootSlot(c)).bootable
            && (Get(c, BootSlot(c)).successful ==> Get(d, BootSlot(c)).successful)
  {
    UpdateSparesCurrent(AfterBoot(c), ops);
  }

  lemma {:induction false} UpdateSparesCurrent(c: Config, ops: seq<Op>)
    requires WellFormed(c)
    requires forall i :: 0 <= i < |ops| ==> ops[i] == OpUpdate || ops[i] == OpSuccess
    ensures var d := ApplyAll(c, ops); var s := Current(c);
            && Current(d) == s
            && Get(d, s).bootable
            && (Get(c, s).successful ==> Get(d, s).successful)
    decreases |ops|
  {
    if ops != [] {
      assert ops[0] == OpUpdate || ops[0] == OpSuccess;
      UpdateSparesCurrent(Apply(c, ops[0]), ops[1..]);
    }
  }
}
