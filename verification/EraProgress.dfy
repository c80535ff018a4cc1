/** The era and session arithmetic of the subscription handler in src/application.cpp. */
module EraProgress {
  import opened Common

  datatype Progress = Progress(eraProgress: int, eraLength: int, sessionProgress: int, sessionLength: int)

  /** Integer division and remainder as C++ has them: they round towards zero. */
  function TruncDiv(a: int, b: int): int
    requires b > 0
  {
    if a >= 0 then a / b else -((-a) / b)
  }

  function TruncMod(a: int, b: int): int
    requires b > 0
  {
    if a >= 0 then a % b else -((-a) % b)
  }

  /** A field of the message; a missing one counts as zero. */
  function Field(x: Option<int>): int { if x.Some? then x.value else 0 }

  /** The update in epoch mode; nothing is reported before the first block number arrives. */
  function EpochUpdate(bestBlock: int, duration: int, sessionsPerEra: int,
                       epochIndex: Option<int>, genesisSlot: Option<int>, currentSlot: Option<int>): Option<Progress>
    requires duration > 0 && sessionsPerEra > 0
  {
    if bestBlock == -1 then None
    else
      var epochStartSlot := duration * Field(epochIndex) + Field(genesisSlot);
      var sessionProgress := Field(currentSlot) - epochStartSlot;
      var eraProgress := TruncMod(Field(epochIndex), sessionsPerEra) * duration + sessionProgress;
      Some(Progress(eraProgress, sessionsPerEra * duration, sessionProgress, duration))
  }

  /** The update in session mode; every field of the message has to be positive. */
  function SessionUpdate(bestBlock: int, lastLengthChange: Option<int>, sessionLength: Option<int>,
                         currentEra: Option<int>, sessionsPerEra: Option<int>,
                         currentIndex: Option<int>): Option<Progress>
  {
    var length := Field(sessionLength);
    var perEra := Field(sessionsPerEra);
    if bestBlock != -1 && Field(lastLengthChange) > 0 && length > 0 && Field(currentEra) > 0 && perEra > 0
       && Field(currentIndex) > 0 then
      var sessionProgress := TruncMod(bestBlock - Field(lastLengthChange) + length, length);
      var eraProgress := TruncMod(Field(currentIndex), perEra) * length + sessionProgress;
      Some(Progress(eraProgress, perEra * length, sessionProgress, length))
    else None
  }

  // ---------------------------------------------------------------- arithmetic

  lemma TruncSplit(a: int, b: int)
    requires b > 0
    ensures a == b * TruncDiv(a, b) + TruncMod(a, b)
    ensures -b < TruncMod(a, b) < b
  {
  }

  /** x - n * q is the remainder of x by n exactly when it lies between 0 and n. */
  lemma {:induction false} RemainderIff(x: int, n: int, q: int)
    requires n > 0
    ensures 0 <= x - n * q < n <==> q == x / n
    ensures q == x / n <==> x - n * q == x % n
  {
    var r := x - n * (x / n);
    assert r == x % n && 0 <= r < n;
    var d := x / n - q;
    assert x - n * q == r + n * d by {
      Distribute(n, x / n, q);
    }
    if d >= 1 {
      Positive(n, d);
    } else if d <= -1 {
      Positive(n, -d);
      assert n * d == -(n * (-d));
    }
  }

  lemma Distribute(n: int, a: int, b: int)
    ensures n * (a - b) == n * a - n * b
  {
  }

  lemma Positive(n: int, d: int)
    requires n > 0 && d >= 1
    ensures n * d >= n
  {
    assert n * d == n + n * (d - 1);
  }

  lemma Associate(a: int, b: int, c: int)
    ensures a * b * c == a * (b * c)
  {
  }

  // ---------------------------------------------------------------- epoch mode

  /** Nothing is reported exactly while no block number is known, and a missing field counts as zero. */
  lemma {:induction false} EpochFields(best: int, duration: int, sessionsPerEra: int,
                                       e: Option<int>, genesis: Option<int>, slot: Option<int>)
    requires duration > 0 && sessionsPerEra > 0
    ensures EpochUpdate(best, duration, sessionsPerEra, e, genesis, slot) == None <==> best == -1
    ensures EpochUpdate(best, duration, sessionsPerEra, e, genesis, slot)
         == EpochUpdate(best, duration, sessionsPerEra,
                        if e.None? then Some(0) else e, if genesis.None? then Some(0) else genesis,
                        if slot.None? then Some(0) else slot)
  {
  }

  /** The era progress counts slots from the start of the reported epoch's era. */
  lemma {:induction false} EpochEraStart(duration: int, sessionsPerEra: int, e: int, genesis: int, slot: int)
    requires duration > 0 && sessionsPerEra > 0
    ensures EpochUpdate(0, duration, sessionsPerEra, Some(e), Some(genesis), Some(slot)).value.eraProgress
         == slot - genesis - sessionsPerEra * duration * TruncDiv(e, sessionsPerEra)
  {
    var q, m := TruncDiv(e, sessionsPerEra), TruncMod(e, sessionsPerEra);
    TruncSplit(e, sessionsPerEra);
    calc {
      duration * e;
      duration * (sessionsPerEra * q + m);
      duration * (sessionsPerEra * q) + duration * m;
      { Associate(duration, sessionsPerEra, q); }
      sessionsPerEra * duration * q + m * duration;
    }
  }

  /** The era progress is the slot's offset in its own era exactly when that era is the reported epoch's. */
  lemma {:induction false} EpochEraProgress(
    best: int, duration: int, sessionsPerEra: int, e: int, genesis: int, slot: int)
    requires best != -1 && duration > 0 && sessionsPerEra > 0
    ensures var eraLength := sessionsPerEra * duration;
            var p := EpochUpdate(best, duration, sessionsPerEra, Some(e), Some(genesis), Some(slot)).value;
            && p.eraLength == eraLength > 0
            && (0 <= p.eraProgress < eraLength <==> TruncDiv(e, sessionsPerEra) == (slot - genesis) / eraLength)
            && (p.eraProgress == (slot - genesis) % eraLength
                <==> TruncDiv(e, sessionsPerEra) == (slot - genesis) / eraLength)
  {
    Positive(duration, sessionsPerEra);
    EpochEraStart(duration, sessionsPerEra, e, genesis, slot);
    RemainderIff(slot - genesis, sessionsPerEra * duration, TruncDiv(e, sessionsPerEra));
  }

  /** The same for the epoch itself: its progress is the slot's offset in its epoch exactly when the slot lies
      in the reported epoch. */
  lemma {:induction false} EpochSessionProgress(
    best: int, duration: int, sessionsPerEra: int, e: int, genesis: int, slot: int)
    requires best != -1 && duration > 0 && sessionsPerEra > 0
    ensures var p := EpochUpdate(best, duration, sessionsPerEra, Some(e), Some(genesis), Some(slot)).value;
            && p.sessionLength == duration && p.sessionProgress == slot - genesis - duration * e
            && (0 <= p.sessionProgress < duration <==> e == (slot - genesis) / duration)
            && (p.sessionProgress == (slot - genesis) % duration <==> e == (slot - genesis) / duration)
  {
    RemainderIff(slot - genesis, duration, e);
  }

  /** A slot that lies in the reported epoch lies in that epoch's era, so both offsets are right. */
  lemma {:induction false} CurrentEpoch(best: int, duration: int, sessionsPerEra: int, e: int, genesis: int, slot: int)
    requires best != -1 && duration > 0 && sessionsPerEra > 0
    requires 0 <= e == (slot - genesis) / duration
    ensures var p := EpochUpdate(best, duration, sessionsPerEra, Some(e), Some(genesis), Some(slot)).value;
            && p.eraProgress == (slot - genesis) % (sessionsPerEra * duration)
            && p.sessionProgress == (slot - genesis) % duration
            && 0 <= p.eraProgress < p.eraLength && 0 <= p.sessionProgress < p.sessionLength
  {
    var m := e % sessionsPerEra;
    var p := EpochUpdate(best, duration, sessionsPerEra, Some(e), Some(genesis), Some(slot)).value;
    EpochSessionProgress(best, duration, sessionsPerEra, e, genesis, slot);
    EpochEraProgress(best, duration, sessionsPerEra, e, genesis, slot);
    WithinLength(m, sessionsPerEra, p.sessionProgress, duration);
  }

  /** Unit m of n units of the given length, and an offset in it, stay below the whole length. */
  lemma {:induction false} WithinLength(m: int, n: int, offset: int, length: int)
    requires 0 <= m < n && 0 <= offset < length
    ensures 0 <= m * length + offset < n * length
  {
    Distribute(length, n, m);
    Positive(length, n - m);
    assert 0 <= m * length;
  }

  // ---------------------------------------------------------------- session mode

  /** In session mode an update is reported exactly if every field is there and positive and a block number is
      known. The session progress is the best block's offset since the last change of length, modulo the length,
      exactly when that change came no more than one session after the best block, or a whole number of sessions
      after it; otherwise it is one length less, and negative. The era progress adds the sessions before, and is
      in range also when the session is not the first of its era. */
  lemma {:induction false} SessionProgress(best: int, lastChange: Option<int>, sessionLength: Option<int>,
                                           era: Option<int>, sessionsPerEra: Option<int>, currentIndex: Option<int>)
    ensures var u := SessionUpdate(best, lastChange, sessionLength, era, sessionsPerEra, currentIndex);
            && (u.Some? <==> && best != -1 && lastChange.Some? && lastChange.value > 0
                             && sessionLength.Some? && sessionLength.value > 0 && era.Some? && era.value > 0
                             && sessionsPerEra.Some? && sessionsPerEra.value > 0
                             && currentIndex.Some? && currentIndex.value > 0)
            && (u.Some? ==>
                  var last, length := lastChange.value, sessionLength.value;
                  var perEra, index := sessionsPerEra.value, currentIndex.value;
                  var inRange := best + length >= last || (last - best - length) % length == 0;
                  var p := u.value;
                  && p.sessionLength == length && p.eraLength == perEra * length
                  && p.sessionProgress == (best - last) % length - (if inRange then 0 else length)
                  && p.eraProgress == index % perEra * length + p.sessionProgress
                  && (0 <= p.sessionProgress < length <==> inRange)
                  && (0 <= p.eraProgress < p.eraLength <==> inRange || index % perEra != 0))
  {
    var last, length := Field(lastChange), Field(sessionLength);
    var perEra, index := Field(sessionsPerEra), Field(currentIndex);
    if SessionUpdate(best, lastChange, sessionLength, era, sessionsPerEra, currentIndex).Some? {
      SessionOffset(best - last, length);
      TruncSplit(best - last + length, length);
      EraOffset(index % perEra, perEra, TruncMod(best - last + length, length), length);
    }
  }

  lemma {:induction false} SessionOffset(x: int, length: int)
    requires length > 0
    ensures var sp := TruncMod(x + length, length);
            var inRange := x + length >= 0 || (-x - length) % length == 0;
            && (0 <= sp < length <==> inRange)
            && sp == x % length - (if inRange then 0 else length)
  {
    OneSessionMore(x, length);
    if x + length < 0 {
      assert -(x + length) == -x - length;
      Negated(x + length, length);
    }
  }

  /** Remainders of a number and its negative. */
  lemma {:induction false} Negated(a: int, b: int)
    requires b > 0
    ensures a % b == if (-a) % b == 0 then 0 else b - (-a) % b
  {
    var q := (-a) / b;
    if (-a) % b == 0 {
      assert a - b * (-q) == 0 by { assert b * (-q) == -(b * q); }
      RemainderIff(a, b, -q);
    } else {
      assert a - b * (-q - 1) == b - (-a) % b by { Distribute(b, -q, 1); assert b * (-q) == -(b * q); }
      RemainderIff(a, b, -q - 1);
    }
  }

  lemma {:induction false} EraOffset(m: int, n: int, sp: int, length: int)
    requires 0 <= m < n && -length < sp < length
    ensures 0 <= m * length + sp < n * length <==> sp >= 0 || m != 0
  {
    if sp >= 0 {
      WithinLength(m, n, sp, length);
    } else if m != 0 {
      WithinLength(m - 1, n, length + sp, length);
      Distribute(length, m, 1);
    }
  }

  lemma OneSessionMore(x: int, length: int)
    requires length > 0
    ensures (x + length) % length == x % length
  {
    RemainderIff(x + length, length, x / length + 1);
  }
}
