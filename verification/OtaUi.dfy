/** The upgrade display: it moves towards the milestones reported by the installer,
    fast up to the last one reached, slowly towards the next one. */
module OtaUi {

  /** upgrade_progress_t together with the two static tick counters. */
  datatype Ui = Ui(current: int, prev: int, next: int, slow: nat, fast: nat)

  /** One tick: the rate at which the display advances, and the cap at 99 until the
      installer has reported 100. */
  function Advance(u: Ui): Ui {
    if u.current < u.prev && u.fast >= 2 then u.(current := u.current + 1, slow := 0, fast := 0)
    else
      var f := if u.current < u.prev then u.fast + 1 else u.fast;
      if u.current < u.next && u.slow >= 100 then u.(current := u.current + 1, slow := 0, fast := 0)
      else u.(fast := f, slow := if u.current < u.next then u.slow + 1 else u.slow)
  }

  function Tick(u: Ui): Ui {
    var v := Advance(u);
    if v.current >= 100 && v.prev < 100 then v.(current := 99) else v
  }

  datatype Page = Logo | Upgrading | Success | Failure

  class Display {
    var current: int
    var prevNode: int
    var nextNode: int
    var slowTicks: nat
    var fastTicks: nat

    constructor (start: int)
      ensures State() == Ui(start, 0, 0, 0, 0)
    {
      current, prevNode, nextNode, slowTicks, fastTicks := start, 0, 0, 0, 0;
    }

    function State(): Ui
      reads this
    {
      Ui(current, prevNode, nextNode, slowTicks, fastTicks)
    }

    /** `ota_calc_progress`: the conditions increment their counters as they are tested. */
    method CalcProgress()
      modifies this
      ensures State() == Tick(old(State()))
    {
      var quick := false;
      if current < prevNode {
        quick := fastTicks >= 2;
        fastTicks := fastTicks + 1;
      }
      if quick {
        current := current + 1;
        slowTicks, fastTicks := 0, 0;
      } else {
        var crawl := false;
        if current < nextNode {
          crawl := slowTicks >= 100;
          slowTicks := slowTicks + 1;
        }
        if crawl {
          current := current + 1;
          slowTicks, fastTicks := 0, 0;
        }
      }
      if current >= 100 && prevNode < 100 {
        current := 99;
      }
    }

    /** `ota_sync_upgrade_progress` */
    method Sync(reported: int, announced: int)
      modifies this`prevNode, this`nextNode
      ensures State() == old(State()).(prev := reported, next := announced)
    {
      prevNode := reported;
      nextNode := announced;
    }

    /** One round of the main loop, given what a sync due in this round would read and
        whether the last page call of the round succeeds: the page left on screen, and
        whether the loop ends. A failing page call ends it at once. */
    method Round(due: bool, reported: int, announced: int, logoMode: bool, hasSuccessPage: bool, pageOk: bool)
      returns (page: Page, done: bool)
      modifies this
      ensures var u := if due then old(State()).(prev := reported, next := announced) else old(State());
              && State() == (if logoMode || u.prev < 0 then u else Tick(u))
              && page == (if logoMode then Logo else if u.prev < 0 then Failure
                          else if hasSuccessPage && State().current >= 100 then Success else Upgrading)
              && (done <==> !pageOk || logoMode || u.prev < 0 || State().current >= 100)
    {
      if due {
        Sync(reported, announced);
      }
      if logoMode {
        page := Logo;
      } else {
        if prevNode < 0 {
          page := Failure;
        } else {
          page := Upgrading;
          CalcProgress();
          if hasSuccessPage && current >= 100 {
            page := Success;
          }
        }
      }
      if !pageOk {
        return page, true;
      }
      done := logoMode || prevNode < 0 || current >= 100;
    }

    /** The main loop from the moment the installer has reported 100, with the outcome of
        the page calls of every round: it ends at the first failing one, or showing 100, after
        at most three rounds for each step that was left, in whichever rounds syncs are due. */
    method Finish(announced: int, hasSuccessPage: bool, due: nat -> bool, pageOk: nat -> bool)
      returns (page: Page, rounds: nat)
      requires CountersBounded(State()) && prevNode == 100 && nextNode == announced <= 100 && current <= 100
      modifies this
      ensures 1 <= rounds && (rounds == 1 || rounds <= 3 * (100 - old(current)))
      ensures forall k :: 0 <= k < rounds - 1 ==> pageOk(k)
      ensures !pageOk(rounds - 1) || current == 100
      ensures page == if hasSuccessPage && current == 100 then Success else Upgrading
    {
      page, rounds := Upgrading, 0;
      var done := false;
      while !done
        invariant CountersBounded(State()) && prevNode == 100 && nextNode == announced && current <= 100
        invariant done <==> rounds > 0 && (current == 100 || !pageOk(rounds - 1))
        invariant forall k :: 0 <= k < rounds - 1 ==> pageOk(k)
        invariant rounds > 0 ==> page == if hasSuccessPage && current == 100 then Success else Upgrading
        invariant rounds <= 1 || rounds <= 3 * (100 - old(current))
        invariant !done ==> rounds + Distance(State()) <= 3 * (100 - old(current))
        decreases if done then 0 else 1, Distance(State()) + 3
      {
        if current < 100 {
          TickCloser(State());
        }
        page, done := Round(due(rounds), 100, announced, false, hasSuccessPage, pageOk(rounds));
        rounds := rounds + 1;
      }
    }
  }

  // ----- counters and speed

  predicate CountersBounded(u: Ui) {
    u.fast <= 2 && u.slow <= 100
  }

  function Ticks(u: Ui, n: nat): Ui
    decreases n
  {
    if n == 0 then u else Ticks(Tick(u), n - 1)
  }

  lemma {:induction false} CountersStayBounded(u: Ui, n: nat)
    requires CountersBounded(u)
    ensures CountersBounded(Ticks(u, n))
    decreases n
  {
    if n > 0 {
      CountersStayBounded(Tick(u), n - 1);
    }
  }

  /** Ticks at most needed until the display has caught up. */
  function Distance(u: Ui): int {
    3 * (u.prev - u.current) - u.fast
  }

  lemma TickCloser(u: Ui)
    requires CountersBounded(u) && u.current < u.prev
    ensures CountersBounded(Tick(u)) && Tick(u).prev == u.prev
    ensures Tick(u).current < u.prev ==> Distance(Tick(u)) < Distance(u)
    ensures Tick(u).current >= u.prev ==> Tick(u).current == u.prev
  {
  }

  /** While the installer's value p stays the same, the display reaches exactly p within
      3 * (p - current) ticks. */
  lemma CatchesUp(u: Ui) returns (n: nat)
    requires CountersBounded(u) && u.current <= u.prev
    ensures n <= 3 * (u.prev - u.current)
    ensures Ticks(u, n).current == u.prev == Ticks(u, n).prev
    ensures forall k :: 0 <= k < n ==> Ticks(u, k).current < u.prev
  {
    n := 0;
    if u.current < u.prev {
      n := CatchesUpWithin(u, Distance(u));
    }
  }

  lemma {:induction false} CatchesUpWithin(u: Ui, d: int) returns (n: nat)
    requires CountersBounded(u) && u.current < u.prev && Distance(u) <= d
    ensures n <= d && Ticks(u, n).current == u.prev == Ticks(u, n).prev
    ensures forall k :: 0 <= k < n ==> Ticks(u, k).current < u.prev
    decreases d
  {
    TickCloser(u);
    var v := Tick(u);
    var m := 0;
    if v.current < u.prev {
      m := CatchesUpWithin(v, d - 1);
    }
    n := m + 1;
    forall k | 0 <= k < n
      ensures Ticks(u, k).current < u.prev
    {
      if k > 0 {
        assert Ticks(u, k) == Ticks(v, k - 1);
      }
    }
  }

  /** Between milestones the display crawls: it needs more than 100 ticks for each
      step beyond the last reported value, and never passes the next one. */
  lemma {:induction false} CrawlsTowardsNext(u: Ui, n: nat)
    requires CountersBounded(u) && u.prev <= u.current <= u.next <= 100
    ensures Ticks(u, n).current <= u.next
    ensures 101 * (Ticks(u, n).current - u.current) <= n + u.slow
    decreases n
  {
    if n > 0 && Tick(u).current >= u.prev {
      CrawlStep(u);
      CrawlsTowardsNext(Tick(u), n - 1);
    }
  }

  lemma CrawlStep(u: Ui)
    requires CountersBounded(u) && u.prev <= u.current <= u.next <= 100
    ensures CountersBounded(Tick(u)) && Tick(u).prev == u.prev && Tick(u).next == u.next
    ensures u.prev <= Tick(u).current <= u.next || (u.prev < 100 == u.current && Tick(u).current == 99)
  {
  }

  // ----- exact rates

  lemma {:induction false} TicksAdd(u: Ui, m: nat, n: nat)
    ensures Ticks(u, m + n) == Ticks(Ticks(u, m), n)
    decreases m
  {
    if m > 0 {
      TicksAdd(Tick(u), m - 1, n);
    }
  }

  lemma {:induction false} SlowWait(u: Ui, k: nat)
    requires CountersBounded(u) && u.prev <= u.current < u.next && u.current <= 98 && u.slow + k <= 100
    ensures Ticks(u, k) == u.(slow := u.slow + k)
    decreases k
  {
    if k > 0 {
      SlowWait(Tick(u), k - 1);
    }
  }

  /** Past the last report and short of the next node, the display moves one step after
      exactly 101 - slow ticks, and starts counting anew. */
  lemma CrawlRate(u: Ui)
    requires CountersBounded(u) && u.prev <= u.current < u.next && u.current <= 98
    ensures Ticks(u, 101 - u.slow) == u.(current := u.current + 1, slow := 0, fast := 0)
    ensures forall k :: 0 <= k <= 100 - u.slow ==> Ticks(u, k).current == u.current
  {
    TicksAdd(u, 100 - u.slow, 1);
    SlowWait(u, 100 - u.slow);
    OneTick(u.(slow := 100));
    forall k | 0 <= k <= 100 - u.slow
      ensures Ticks(u, k).current == u.current
    {
      SlowWait(u, k);
    }
  }

  lemma OneTick(u: Ui)
    ensures Ticks(u, 1) == Tick(u)
  {
    assert Ticks(Tick(u), 0) == Tick(u);
  }

  /** So it reaches the next node, or 99 before it, after exactly 101 ticks a step. */
  lemma {:induction false} CrawlsToTarget(u: Ui, target: int)
    requires CountersBounded(u) && u.prev <= u.current < target <= u.next && target <= 99
    ensures Ticks(u, 101 * (target - u.current) - u.slow) ==
            u.(current := target, slow := 0, fast := 0)
    decreases target - u.current
  {
    CrawlRate(u);
    var v := u.(current := u.current + 1, slow := 0, fast := 0);
    if v.current < target {
      CrawlsToTarget(v, target);
      TicksAdd(u, 101 - u.slow, 101 * (target - v.current));
    }
  }

  /** It stays at the next node, and at 99 until 100 is reported. */
  lemma {:induction false} StaysThere(u: Ui, n: nat)
    requires CountersBounded(u) && u.prev <= u.current <= 99 && (u.current >= u.next || u.current == 99)
    ensures Ticks(u, n).current == u.current
    decreases n
  {
    if n > 0 {
      StaysThere(Tick(u), n - 1);
    }
  }

  lemma {:induction false} FastWait(u: Ui, k: nat)
    requires CountersBounded(u) && u.current < u.prev && u.fast + k <= 2
    requires u.slow + k <= 100 || u.current >= u.next
    ensures var v := Ticks(u, k);
            && v.current == u.current && v.prev == u.prev && v.next == u.next && v.fast == u.fast + k
            && v.slow == u.slow + (if u.current < u.next then k else 0)
    decreases k
  {
    if k > 0 {
      FastWait(Tick(u), k - 1);
    }
  }

  /** Behind the last report, unless a slow step falls due in between, the display moves one
      step after exactly 3 - fast ticks, and starts counting anew. */
  lemma FastRate(u: Ui)
    requires CountersBounded(u) && u.current < u.prev
    requires u.slow + 2 - u.fast <= 100 || u.current >= u.next
    ensures Ticks(u, 3 - u.fast) == u.(current := u.current + 1, slow := 0, fast := 0)
    ensures forall k :: 0 <= k <= 2 - u.fast ==> Ticks(u, k).current == u.current
  {
    hide Ticks;
    TicksAdd(u, 2 - u.fast, 1);
    FastWait(u, 2 - u.fast);
    OneTick(Ticks(u, 2 - u.fast));
    forall k | 0 <= k <= 2 - u.fast
      ensures Ticks(u, k).current == u.current
    {
      FastWait(u, k);
    }
  }

  /** A slow step that falls due in between is taken at once. */
  lemma SlowStepDue(u: Ui)
    requires u.current < u.prev && u.fast < 2 && u.current < u.next && u.slow >= 100
    ensures Tick(u) == u.(current := u.current + 1, slow := 0, fast := 0)
  {
  }

  /** So it catches up after exactly three ticks a step. */
  lemma {:induction false} CatchesUpExactly(u: Ui)
    requires CountersBounded(u) && u.current < u.prev
    requires u.slow + 2 - u.fast <= 100 || u.current >= u.next
    ensures Ticks(u, 3 * (u.prev - u.current) - u.fast) == u.(current := u.prev, slow := 0, fast := 0)
    decreases u.prev - u.current
  {
    FastRate(u);
    var v := u.(current := u.current + 1, slow := 0, fast := 0);
    if v.current < u.prev {
      CatchesUpExactly(v);
      TicksAdd(u, 3 - u.fast, 3 * (u.prev - v.current));
    }
  }
}
