/** The VBUS poll of src/main.cpp: `usb_vbus_work_handler` and its initialisation in `main`. */
module VbusDebounce {

  const DEBOUNCE_MS: nat := 2000
  const U32: nat := 0x1_0000_0000

  /** `usb_is_enabled`, `last_vbus_state`, `vbus_change_ms`. */
  datatype State = State(enabled: bool, last: bool, changeMs: nat)

  /** The 32-bit uptime counter. */
  function Wrap(ms: nat): (t: nat)
    ensures t < U32
  {
    ms % U32
  }

  /** Unsigned 32-bit subtraction. */
  function Minus32(a: nat, b: nat): (d: nat)
    requires a < U32 && b < U32
    ensures d < U32
  {
    Wrap(a - b + U32)
  }

  /** One poll: the level read, the 32-bit uptime, and whether `tinygs_usb_enable` succeeds. */
  function Poll(s: State, present: bool, nowMs: nat, enableOk: bool): State
    requires s.changeMs < U32 && nowMs < U32
  {
    if present != s.last then s.(last := present, changeMs := nowMs)
    else if present != s.enabled && Minus32(nowMs, s.changeMs) >= DEBOUNCE_MS then
      if present then (if enableOk then s.(enabled := true) else s) else s.(enabled := false)
    else s
  }

  class UsbPoll {
    var usbIsEnabled: bool
    var lastVbusState: bool
    var vbusChangeMs: nat

    /** `main`: the first reading, and an immediate enable if a cable is there. */
    constructor (present: bool, nowMs: nat, enableOk: bool)
      requires nowMs < U32
      ensures State(usbIsEnabled, lastVbusState, vbusChangeMs) == State(present && enableOk, present, nowMs)
    {
      lastVbusState := present;
      vbusChangeMs := nowMs;
      usbIsEnabled := present && enableOk;
    }

    method WorkHandler(present: bool, nowMs: nat, enableOk: bool)
      requires nowMs < U32 && vbusChangeMs < U32
      modifies this
      ensures vbusChangeMs < U32
      ensures State(usbIsEnabled, lastVbusState, vbusChangeMs)
              == Poll(old(State(usbIsEnabled, lastVbusState, vbusChangeMs)), present, nowMs, enableOk)
    {
      if present != lastVbusState {
        lastVbusState := present;
        vbusChangeMs := nowMs;
      } else if present != usbIsEnabled && Minus32(nowMs, vbusChangeMs) >= DEBOUNCE_MS {
        if present {
          if enableOk {
            usbIsEnabled := true;
          }
        } else {
          usbIsEnabled := false;
        }
      }
    }
  }

  // ------------------------------------------------------ runs

  /** A reading at true time `ms` since boot; the device sees the time modulo 2^32. */
  datatype Reading = Reading(ms: nat, present: bool, enableOk: bool)

  /** The first reading is the one `main` makes, the others are polls; time moves forward. */
  ghost predicate IsRun(r: seq<Reading>)
  {
    r != [] && forall i, j :: 0 <= i < j < |r| ==> r[i].ms < r[j].ms
  }

  function After(r: seq<Reading>, n: nat): (s: State)
    requires n < |r|
    ensures s.changeMs < U32
  {
    if n == 0 then State(r[0].present && r[0].enableOk, r[0].present, Wrap(r[0].ms))
    else Poll(After(r, n - 1), r[n].present, Wrap(r[n].ms), r[n].enableOk)
  }

  /** Did poll `n` switch the USB stack on or off? */
  predicate Toggles(r: seq<Reading>, n: nat)
    requires 0 < n < |r|
  {
    After(r, n).enabled != After(r, n - 1).enabled
  }

  /** The reading at which the current level was first seen. */
  function LevelSince(r: seq<Reading>, n: nat): (k: nat)
    requires n < |r|
    ensures k <= n
  {
    if n == 0 || r[n].present != r[n - 1].present then n else LevelSince(r, n - 1)
  }

  lemma {:induction false} LevelIsConstant(r: seq<Reading>, n: nat)
    requires n < |r|
    ensures forall i :: LevelSince(r, n) <= i <= n ==> r[i].present == r[n].present
    ensures LevelSince(r, n) > 0 ==> r[LevelSince(r, n) - 1].present != r[n].present
  {
    if n > 0 && r[n].present == r[n - 1].present {
      LevelIsConstant(r, n - 1);
    }
  }

  /** The device remembers the level and the (wrapped) time it was first seen. */
  lemma {:induction false} Remembers(r: seq<Reading>, n: nat)
    requires n < |r|
    ensures After(r, n).last == r[n].present
    ensures After(r, n).changeMs == Wrap(r[LevelSince(r, n)].ms)
  {
    if n > 0 { Remembers(r, n - 1); }
  }

  /** Wrapped subtraction gives the true difference modulo 2^32. */
  lemma WrappedDifference(a: nat, b: nat)
    requires b <= a
    ensures Minus32(Wrap(a), Wrap(b)) == Wrap(a - b)
  {
    var p, q := a / U32, b / U32;
    var x, y := a % U32, b % U32;
    assert a == U32 * p + x && b == U32 * q + y;
    if x >= y {
      assert a - b == U32 * (p - q) + (x - y);
      assert p >= q;
    } else {
      assert a - b == U32 * (p - q - 1) + (x - y + U32);
      assert p - q - 1 >= 0;
    }
  }

  lemma ModBelow(a: nat)
    ensures Wrap(a) <= a && (a < U32 ==> Wrap(a) == a)
  {
  }

  /** Exactly when a poll toggles the stack. */
  lemma TogglesWhen(r: seq<Reading>, n: nat)
    requires IsRun(r) && 0 < n < |r|
    ensures var k := LevelSince(r, n);
            Toggles(r, n) <==>
            k < n && r[n].present != After(r, n - 1).enabled
            && r[k].ms < r[n].ms && Wrap(r[n].ms - r[k].ms) >= DEBOUNCE_MS
            && (r[n].present ==> r[n].enableOk)
    ensures Toggles(r, n) ==> After(r, n).enabled == r[n].present
  {
    hide Wrap, Minus32, After, Poll, LevelSince, IsRun, Toggles;
    var k := LevelSince(r, n);
    LevelStep(r, n);
    Remembers(r, n - 1);
    AfterStep(r, n);
    var a := After(r, n - 1);
    PollToggles(a, r[n].present, Wrap(r[n].ms), r[n].enableOk);
    if k < n {
      TimeMoves(r, k, n);
      WrappedDifference(r[n].ms, r[k].ms);
      assert Minus32(Wrap(r[n].ms), a.changeMs) == Wrap(r[n].ms - r[k].ms);
    } else {
      assert r[n].present != a.last;
    }
  }

  lemma TimeMoves(r: seq<Reading>, k: nat, n: nat)
    requires IsRun(r) && k < n < |r|
    ensures r[k].ms < r[n].ms
  {
  }

  lemma AfterStep(r: seq<Reading>, n: nat)
    requires 0 < n < |r|
    ensures After(r, n) == Poll(After(r, n - 1), r[n].present, Wrap(r[n].ms), r[n].enableOk)
    ensures Toggles(r, n) <==> After(r, n).enabled != After(r, n - 1).enabled
  {
    hide Wrap, Poll;
  }

  lemma LevelStep(r: seq<Reading>, n: nat)
    requires 0 < n < |r|
    ensures LevelSince(r, n) < n <==> r[n].present == r[n - 1].present
    ensures LevelSince(r, n) < n ==> LevelSince(r, n - 1) == LevelSince(r, n)
  {
  }

  lemma PollToggles(s: State, present: bool, nowMs: nat, enableOk: bool)
    requires s.changeMs < U32 && nowMs < U32
    ensures var t := Poll(s, present, nowMs, enableOk);
            && (t.enabled != s.enabled <==>
                present == s.last && present != s.enabled && Minus32(nowMs, s.changeMs) >= DEBOUNCE_MS
                && (present ==> enableOk))
            && (t.enabled != s.enabled ==> t.enabled == present)
  {
    hide Minus32;
  }

  /** The stack is switched only when every poll of at least the last 2000 ms read the same level,
      and it is switched to that level; wrap-around of the clock never makes the device hasty. */
  lemma ToggleNeedsStableLevel(r: seq<Reading>, n: nat)
    requires IsRun(r) && 0 < n < |r| && Toggles(r, n)
    ensures exists k :: 0 <= k < n && r[n].ms - r[k].ms >= DEBOUNCE_MS
                        && (forall i :: k <= i <= n ==> r[i].present == r[n].present)
    ensures After(r, n).enabled == r[n].present
  {
    hide Wrap, Toggles, After;
    var k := LevelSince(r, n);
    TogglesWhen(r, n);
    LevelIsConstant(r, n);
    ModBelow(r[n].ms - r[k].ms);
    assert 0 <= k < n && r[n].ms - r[k].ms >= DEBOUNCE_MS;
  }

  /** Between two toggles the level must have been the other one. */
  lemma {:induction false} EnabledBetween(r: seq<Reading>, m: nat, n: nat)
    requires IsRun(r) && m <= n < |r|
    requires forall i :: m < i <= n ==> !Toggles(r, i)
    ensures After(r, n).enabled == After(r, m).enabled
    decreases n
  {
    if m < n {
      assert !Toggles(r, n);
      EnabledBetween(r, m, n - 1);
    }
  }

  /** The last toggle before poll `n`, from toggle `m` on. */
  lemma {:induction false} LastToggle(r: seq<Reading>, m: nat, n: nat) returns (i: nat)
    requires 0 < m < n <= |r| && Toggles(r, m)
    ensures m <= i < n && Toggles(r, i)
    ensures forall j :: i < j < n ==> !Toggles(r, j)
    decreases n
  {
    if Toggles(r, n - 1) {
      i := n - 1;
    } else {
      i := LastToggle(r, m, n - 1);
    }
  }

  /** Any two toggles are more than 2000 ms apart. */
  lemma TogglesAreFarApart(r: seq<Reading>, m: nat, n: nat)
    requires IsRun(r) && 0 < m < n < |r| && Toggles(r, m) && Toggles(r, n)
    ensures r[n].ms - r[m].ms > DEBOUNCE_MS
  {
    hide Toggles;
    var i := LastToggle(r, m, n);
    NextToggleIsFar(r, i, n);
    assert m < i ==> r[m].ms < r[i].ms;
  }

  lemma NextToggleIsFar(r: seq<Reading>, m: nat, n: nat)
    requires IsRun(r) && 0 < m < n < |r| && Toggles(r, m) && Toggles(r, n)
    requires forall i :: m < i < n ==> !Toggles(r, i)
    ensures r[n].ms - r[m].ms > DEBOUNCE_MS
  {
    var k := LevelSince(r, n);
    TogglesWhen(r, m);
    TogglesWhen(r, n);
    LevelIsConstant(r, n);
    EnabledBetween(r, m, n - 1);
    ModBelow(r[n].ms - r[k].ms);
    assert r[m].present != r[n].present;
    assert m < k;
  }

  /** Exactly when a poll leaves the level matched: it was so before, or this poll switches. */
  lemma MatchedIff(r: seq<Reading>, n: nat)
    requires IsRun(r) && 0 < n < |r|
    ensures After(r, n).enabled == r[n].present <==>
            After(r, n - 1).enabled == r[n].present || Switches(r, LevelSince(r, n), n)
  {
    hide Wrap, After, LevelSince, IsRun, Toggles;
    TogglesWhen(r, n);
    AfterStep(r, n);
    if LevelSince(r, n) < n {
      TimeMoves(r, LevelSince(r, n), n);
    }
  }

  /** Poll `j` comes late enough after the level was first seen at `k`, on the clock the device has, and the
      stack can be enabled if that is what it takes. */
  predicate Switches(r: seq<Reading>, k: nat, j: nat)
    requires k < |r| && j < |r|
  {
    k < j && r[k].ms < r[j].ms && Wrap(r[j].ms - r[k].ms) >= DEBOUNCE_MS && (r[j].present ==> r[j].enableOk)
  }

  /** Over the whole run: a level first seen at reading `k` is matched at reading `n` if and only if it was
      when it was first seen, or some poll since then was late enough modulo 2^32 and could switch. */
  lemma {:induction false} MatchedSinceIff(r: seq<Reading>, n: nat)
    requires IsRun(r) && n < |r|
    ensures var k := LevelSince(r, n);
            After(r, n).enabled == r[n].present <==>
            After(r, k).enabled == r[k].present || exists j :: k < j <= n && Switches(r, k, j)
  {
    hide Wrap, After, IsRun, Toggles, Switches;
    var k := LevelSince(r, n);
    LevelIsConstant(r, n);
    if k < n {
      MatchedSinceIff(r, n - 1);
      MatchedIff(r, n);
    }
  }

  /** A level that stays constant is matched by the first poll 2000 ms after it appeared, if the
      stack can be enabled, as long as that poll comes less than 2^32 ms after the change. */
  lemma ConstantLevelIsMatched(r: seq<Reading>, n: nat)
    requires IsRun(r) && 0 < n < |r|
    requires var k := LevelSince(r, n); k < n && DEBOUNCE_MS <= r[n].ms - r[k].ms < U32
    requires r[n].present ==> r[n].enableOk
    ensures After(r, n).enabled == r[n].present
  {
    hide Wrap, After, LevelSince;
    TogglesWhen(r, n);
    ModBelow(r[n].ms - r[LevelSince(r, n)].ms);
  }

  /** And it stays matched at every later poll, however late, for as long as it is constant. */
  lemma {:induction false} MatchedLevelStaysMatched(r: seq<Reading>, n: nat, later: nat)
    requires IsRun(r) && 0 < n <= later < |r| && LevelSince(r, later) == LevelSince(r, n)
    requires var k := LevelSince(r, n); k < n && DEBOUNCE_MS <= r[n].ms - r[k].ms < U32
    requires r[n].present ==> r[n].enableOk
    ensures After(r, later).enabled == r[later].present
    decreases later
  {
    hide Wrap, After, LevelSince, IsRun;
    if later == n {
      ConstantLevelIsMatched(r, n);
    } else {
      LevelIsConstant(r, later);
      LevelIsConstant(r, n);
      LevelStep(r, later);
      MatchedLevelStaysMatched(r, n, later - 1);
      TogglesWhen(r, later);
      AfterStep(r, later);
    }
  }

  /** A level may stay unmatched for longer than 2^32 ms although no two polls are that far apart: every poll
      comes less than 2000 ms after the change, modulo 2^32. */
  lemma ShortGapsDoNotHelp(r: seq<Reading>)
    requires r == [Reading(0, false, true), Reading(1, true, true), Reading(2000, true, true),
                   Reading(U32 + 1999, true, true)]
    ensures IsRun(r) && LevelSince(r, 3) == 1
    ensures forall i :: 0 < i < |r| ==> r[i].ms - r[i - 1].ms < U32
    ensures r[3].ms - r[1].ms >= U32 && After(r, 3).enabled != r[3].present
  {
    assert After(r, 0) == State(false, false, 0);
    assert After(r, 1) == State(false, true, 1);
    assert After(r, 2) == State(false, true, 1);
    assert LevelSince(r, 1) == 1;
    assert LevelSince(r, 2) == 1;
  }

  /** At a single poll exactly 2^32 ms after the change, the wrapped clock reads the same time again and
      nothing happens. */
  lemma WrapHidesTheChange(r: seq<Reading>)
    requires r == [Reading(0, false, true), Reading(1, true, true), Reading(U32 + 1, true, true)]
    ensures IsRun(r) && LevelSince(r, 2) == 1 && r[2].ms - r[1].ms >= DEBOUNCE_MS
    ensures After(r, 2).enabled != r[2].present
  {
    assert After(r, 0) == State(false, false, 0);
    assert After(r, 1) == State(false, true, 1);
  }

  /** Where a level is first seen, nothing is switched: at the start it is matched if and only if it is absent
      or can be enabled, later if and only if the level before was not. */
  lemma FirstSeenMatchedIff(r: seq<Reading>, k: nat)
    requires k < |r| && LevelSince(r, k) == k
    ensures After(r, k).enabled == r[k].present <==>
            if k == 0 then r[0].present ==> r[0].enableOk else After(r, k - 1).enabled != r[k - 1].present
  {
    if k > 0 {
      Remembers(r, k - 1);
    }
  }
}
