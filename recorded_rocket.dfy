/**
 * The replayer of src/rockets/recorded_rocket.ts: it feeds a fixed recording of
 * inputs to its rocket, one per tick, wrapping around at the end.
 */
module RecordedRockets {
  import opened Rockets

  /** One tick of recorded control input (recorded_input.ts is not part of this model). */
  datatype RecordedInput = RecordedInput(x: real, y: real)

  /** The cursor after one replay step over a recording of length len. */
  function NextCursor(cursor: nat, len: nat): (next: nat)
    requires len > 0
    ensures next < len
    ensures cursor < len - 1 ==> next == cursor + 1
    ensures cursor == len - 1 ==> next == 0
  {
    (cursor + 1) % len
  }

  /** The cursor after k replay steps. */
  function CursorAfter(cursor: nat, k: nat, len: nat): nat
    requires len > 0
  {
    if k == 0 then cursor else NextCursor(CursorAfter(cursor, k - 1, len), len)
  }

  /** k steps move a cursor in range to (cursor + k) mod len. */
  lemma {:induction false} CursorAfterIsModular(cursor: nat, k: nat, len: nat)
    requires len > 0 && cursor < len
    ensures CursorAfter(cursor, k, len) == (cursor + k) % len
  {
    if k == 0 {
      ModUnique(cursor, len, 0, cursor);
    } else {
      CursorAfterIsModular(cursor, k - 1, len);
      ModSuccessor(cursor + k - 1, len);
    }
  }

  /** The remainder is the unique r in [0, len) with n == q·len + r. */
  lemma ModUnique(n: int, len: int, q: int, r: int)
    requires len > 0 && 0 <= r < len && n == q * len + r
    ensures n % len == r
  {
    var q2, r2 := n / len, n % len;
    assert n == q2 * len + r2;
    if q2 > q {
      MulAtLeast(q2 - q, len);
    } else if q2 < q {
      MulAtLeast(q - q2, len);
    }
  }

  lemma MulAtLeast(a: int, len: int)
    requires a >= 1 && len > 0
    ensures a * len >= len
  {
    assert a * len == (a - 1) * len + len;
    MulNonNeg(a - 1, len);
  }

  lemma MulNonNeg(a: int, b: int)
    requires a >= 0 && b >= 0
    ensures a * b >= 0
  {
  }

  /** ((n mod len) + 1) mod len == (n + 1) mod len. */
  lemma ModSuccessor(n: nat, len: nat)
    requires len > 0
    ensures (n % len + 1) % len == (n + 1) % len
  {
    var q, r := n / len, n % len;
    assert n == q * len + r;
    if r + 1 < len {
      ModUnique(n + 1, len, q, r + 1);
      ModUnique(r + 1, len, 0, r + 1);
    } else {
      assert n + 1 == (q + 1) * len;
      ModUnique(n + 1, len, q + 1, 0);
      ModUnique(r + 1, len, 1, 0);
    }
  }

  /** ((a mod len) + b) mod len == (a + b) mod len. */
  lemma ModShift(a: nat, b: nat, len: nat)
    requires len > 0
    ensures (a % len + b) % len == (a + b) % len
  {
    var q, r := a / len, a % len;
    assert a == q * len + r;
    var q2, r2 := (r + b) / len, (r + b) % len;
    assert r + b == q2 * len + r2;
    assert a + b == (q + q2) * len + r2;
    ModUnique(a + b, len, q + q2, r2);
  }

  /** The cursor stays in [0, len) however many steps are taken. */
  lemma CursorStaysInRange(cursor: nat, k: nat, len: nat)
    requires len > 0 && cursor < len
    ensures CursorAfter(cursor, k, len) < len
  {
    CursorAfterIsModular(cursor, k, len);
  }

  /** After exactly len steps the cursor is back where it started. */
  lemma PeriodIsLength(cursor: nat, len: nat)
    requires len > 0 && cursor < len
    ensures CursorAfter(cursor, len, len) == cursor
  {
    CursorAfterIsModular(cursor, len, len);
    ModUnique(cursor + len, len, 1, cursor);
  }

  /** ... and no shorter positive number of steps brings it back. */
  lemma PeriodIsExact(cursor: nat, k: nat, len: nat)
    requires len > 0 && cursor < len
    requires 0 < k < len
    ensures CursorAfter(cursor, k, len) != cursor
  {
    CursorAfterIsModular(cursor, k, len);
    if cursor + k < len {
      ModUnique(cursor + k, len, 0, cursor + k);
    } else {
      ModUnique(cursor + k, len, 1, cursor + k - len);
    }
  }

  /** The inputs that k replay calls apply, starting at cursor. */
  function Replayed(recording: seq<RecordedInput>, cursor: nat, k: nat): (applied: seq<RecordedInput>)
    requires cursor < |recording|
    ensures |applied| == k
    decreases k
  {
    if k == 0 then []
    else [recording[cursor]] + Replayed(recording, NextCursor(cursor, |recording|), k - 1)
  }

  /** The j-th replayed input is the recording's entry at (cursor + j) mod length. */
  lemma {:induction false} ReplayedAt(recording: seq<RecordedInput>, cursor: nat, k: nat, j: nat)
    requires cursor < |recording|
    requires j < k
    ensures Replayed(recording, cursor, k)[j] == recording[(cursor + j) % |recording|]
    decreases k
  {
    var len := |recording|;
    if j == 0 {
      ModUnique(cursor, len, 0, cursor);
    } else {
      var next := NextCursor(cursor, len);
      ReplayedAt(recording, next, k - 1, j - 1);
      ModShift(cursor + 1, j - 1, len);
    }
  }

  /** A full cycle from the start replays the recording exactly, in order. */
  lemma FullCycleReplaysRecording(recording: seq<RecordedInput>)
    requires |recording| > 0
    ensures Replayed(recording, 0, |recording|) == recording
  {
    var r := Replayed(recording, 0, |recording|);
    forall j | 0 <= j < |recording|
      ensures r[j] == recording[j]
    {
      ReplayedAt(recording, 0, |recording|, j);
      ModUnique(j, |recording|, 0, j);
    }
  }

  class RecordedRocketController {
    const rocket: BaseRocket
    const recordedInputs: seq<RecordedInput>
    var cursor: nat

    ghost predicate Valid()
      reads this
    {
      0 < |recordedInputs| && cursor < |recordedInputs|
    }

    /** A replayer that starts at the first recorded input; the recording must not be empty. */
    constructor (rocket: BaseRocket, recordedInputs: seq<RecordedInput>)
      requires |recordedInputs| > 0
      ensures Valid()
      ensures this.rocket == rocket && this.recordedInputs == recordedInputs
      ensures cursor == 0
    {
      this.rocket := rocket;
      this.recordedInputs := recordedInputs;
      cursor := 0;
    }

    /**
     * applyNextRecordedInput: applies the input under the cursor to the rocket
     * (the self-destruct flag it passes is not read by the rocket) and advances
     * the cursor modulo the recording's length.
     */
    method ApplyNextRecordedInput() returns (applied: RecordedInput, cmd: ForceCommand)
      requires Valid()
      modifies this`cursor, rocket`linearVelocityAbs, rocket`angularVelocityAbs
      ensures Valid()
      ensures applied == recordedInputs[old(cursor)]
      ensures cursor == NextCursor(old(cursor), |recordedInputs|)
      ensures cmd == ControlCommand(rocket.controlType, applied.x, applied.y, rocket.rotation)
      ensures rocket.linearVelocityAbs == rocket.bodySpeed
      ensures rocket.angularVelocityAbs == Abs(rocket.bodyAngularVelocity)
    {
      applied := recordedInputs[cursor];
      cmd := rocket.ApplyInput(applied.x, applied.y);
      cursor := cursor + 1;
      cursor := cursor % |recordedInputs|;
    }
  }
}
