/**
  Keyframe search and interpolation for animation tracks: a track is a
  sequence of (time, value) keys; the search advances past every key whose
  time the query time has reached, the value is then the last key's value or
  a blend between the two keys around the stop.
 */
module Keyframes {
  import opened Geometry

  datatype Key<V> = Key(time: real, value: V)

  /** Key times strictly increase along a track. */
  predicate Increasing<V>(keys: seq<Key<V>>)
  {
    forall i, j | 0 <= i < j < |keys| :: keys[i].time < keys[j].time
  }

  /**
    A track the interpolation can evaluate at time: it has a key, and the
    blend does not divide by zero. The search only stops at a pair i > 0
    after passing t_i <= time < t_{i+1}, so the only zero span it can select
    is the first pair, when time is before the second key and the first two
    keys share their time. No ordering of the key times is needed.
   */
  predicate Interpolable<V>(keys: seq<Key<V>>, time: real)
  {
    |keys| > 0 && (|keys| > 1 && time < keys[1].time ==> keys[0].time != keys[1].time)
  }

  /**
    Spherical interpolation and normalisation of quaternions: floating-point
    routines of the import library, taken as parameters.
   */
  datatype Rotations = Rotations(slerp: (Quat, Quat, real) -> Quat, normalize: Quat -> Quat)

  /** Where the key search stops when it starts at index i. */
  function KeyIntervalFrom<V>(keys: seq<Key<V>>, time: real, i: nat): (r: nat)
    requires i < |keys|
    decreases |keys| - i
    ensures i <= r < |keys|
    ensures r == |keys| - 1 || time < keys[r + 1].time
    ensures forall j | i < j <= r :: keys[j].time <= time
  {
    if i < |keys| - 1 && time >= keys[i + 1].time then KeyIntervalFrom(keys, time, i + 1) else i
  }

  /** The lower key of the interval the search selects for time. */
  function KeyInterval<V>(keys: seq<Key<V>>, time: real): nat
    requires |keys| > 0
  {
    KeyIntervalFrom(keys, time, 0)
  }

  /** The key search loop. */
  method FindKeyInterval<V>(keys: seq<Key<V>>, time: real) returns (i: nat)
    requires |keys| > 0
    ensures i == KeyInterval(keys, time)
  {
    i := 0;
    while i < |keys| - 1 && time >= keys[i + 1].time
      invariant i < |keys|
      invariant KeyIntervalFrom(keys, time, i) == KeyInterval(keys, time)
    {
      i := i + 1;
    }
  }

  /**
    Whatever the order of the key times, a pair the search selects below the
    last key brackets time from the second pair on, and its span is not zero
    on an interpolable track.
   */
  lemma SelectedSpan<V>(keys: seq<Key<V>>, time: real)
    requires Interpolable(keys, time)
    ensures var i := KeyInterval(keys, time);
      i < |keys| - 1 ==> && time < keys[i + 1].time
                         && (i > 0 ==> keys[i].time <= time)
                         && keys[i + 1].time != keys[i].time
  {
  }

  /**
    A track with a repeated key time, 0, 1, 1, 2, evaluated at 1: the search
    passes both keys at time 1 and blends the last pair from its start.
   */
  lemma RepeatedTimeTrack(a: Vec3, b: Vec3, c: Vec3, d: Vec3)
    ensures var keys := [Key(0.0, a), Key(1.0, b), Key(1.0, c), Key(2.0, d)];
      && Interpolable(keys, 1.0) && !Increasing(keys)
      && KeyInterval(keys, 1.0) == 2
      && InterpolateVector(keys, 1.0) == Lerp(c, d, 0.0)
  {
    var keys := [Key(0.0, a), Key(1.0, b), Key(1.0, c), Key(2.0, d)];
    assert keys[1].time == keys[2].time;
    assert KeyIntervalFrom(keys, 1.0, 2) == 2;
    assert KeyIntervalFrom(keys, 1.0, 0) == 2;
  }

  /** The blend factor between key i and key i + 1. */
  function BlendFactor<V>(keys: seq<Key<V>>, i: nat, time: real): real
    requires i + 1 < |keys| && keys[i + 1].time != keys[i].time
  {
    (time - keys[i].time) / (keys[i + 1].time - keys[i].time)
  }

  function Lerp(start: Vec3, end: Vec3, f: real): Vec3
  {
    Add(start, Scale(f, Sub(end, start)))
  }

  /** The value of a position or scaling track at time. */
  function InterpolateVector(keys: seq<Key<Vec3>>, time: real): Vec3
    requires Interpolable(keys, time)
  {
    var i := KeyInterval(keys, time);
    SelectedSpan(keys, time);
    if i >= |keys| - 1 then keys[|keys| - 1].value
    else Lerp(keys[i].value, keys[i + 1].value, BlendFactor(keys, i, time))
  }

  /** The value of a rotation track at time. */
  function InterpolateRotation(keys: seq<Key<Quat>>, time: real, rot: Rotations): Quat
    requires Interpolable(keys, time)
  {
    var i := KeyInterval(keys, time);
    SelectedSpan(keys, time);
    if i >= |keys| - 1 then keys[|keys| - 1].value
    else rot.normalize(rot.slerp(keys[i].value, keys[i + 1].value, BlendFactor(keys, i, time)))
  }

  /** Interpolate for vector keys: key search, then linear blend. */
  method InterpolateVec(keys: seq<Key<Vec3>>, time: real) returns (v: Vec3)
    requires Interpolable(keys, time)
    ensures v == InterpolateVector(keys, time)
  {
    var i := FindKeyInterval(keys, time);
    SelectedSpan(keys, time);
    if i >= |keys| - 1 {
      return keys[|keys| - 1].value;
    }
    var start := keys[i].value;
    var end := keys[i + 1].value;
    var f := (time - keys[i].time) / (keys[i + 1].time - keys[i].time);
    v := Add(start, Scale(f, Sub(end, start)));
  }

  /** Interpolate for quaternion keys: key search, then SLERP and normalisation. */
  method InterpolateQuat(keys: seq<Key<Quat>>, time: real, rot: Rotations) returns (q: Quat)
    requires Interpolable(keys, time)
    ensures q == InterpolateRotation(keys, time, rot)
  {
    var i := FindKeyInterval(keys, time);
    SelectedSpan(keys, time);
    if i >= |keys| - 1 {
      return keys[|keys| - 1].value;
    }
    var f := (time - keys[i].time) / (keys[i + 1].time - keys[i].time);
    q := rot.slerp(keys[i].value, keys[i + 1].value, f);
    q := rot.normalize(q);
  }

  // ---------------------------------------------------------------------
  // Properties of the key search

  /** Started at or before i, the search stops at i when time lies in [t_i, t_{i+1}). */
  lemma {:induction false} BracketFrom<V>(keys: seq<Key<V>>, time: real, i: nat, start: nat)
    requires Increasing(keys) && start <= i && i + 1 < |keys|
    requires keys[i].time <= time < keys[i + 1].time
    ensures KeyIntervalFrom(keys, time, start) == i
    decreases i - start
  {
    if start < i {
      assert keys[start + 1].time <= keys[i].time;
      BracketFrom(keys, time, i, start + 1);
    }
  }

  /**
    The search selects the bracketing interval: whenever t_i <= time < t_{i+1}
    the lower key is i.
   */
  lemma BracketSelectsKey<V>(keys: seq<Key<V>>, time: real, i: nat)
    requires Increasing(keys) && i + 1 < |keys|
    requires keys[i].time <= time < keys[i + 1].time
    ensures KeyInterval(keys, time) == i
  {
    BracketFrom(keys, time, i, 0);
  }

  /** Started anywhere, the search runs to the last key once time has reached it. */
  lemma {:induction false} PastEndFrom<V>(keys: seq<Key<V>>, time: real, start: nat)
    requires Increasing(keys) && start < |keys|
    requires keys[|keys| - 1].time <= time
    ensures KeyIntervalFrom(keys, time, start) == |keys| - 1
    decreases |keys| - start
  {
    if start < |keys| - 1 {
      assert keys[start + 1].time <= keys[|keys| - 1].time;
      PastEndFrom(keys, time, start + 1);
    }
  }

  /**
    A time equal to a key's time selects that key as the lower bound of the
    interval (ties go to the later key).
   */
  lemma EqualTimeSelectsKey<V>(keys: seq<Key<V>>, k: nat)
    requires Increasing(keys) && k < |keys|
    ensures KeyInterval(keys, keys[k].time) == k
  {
    if k + 1 < |keys| {
      BracketSelectsKey(keys, keys[k].time, k);
    } else {
      PastEndFrom(keys, keys[k].time, 0);
    }
  }

  /** The search ends on the last key exactly when there is one key or time has reached the last one. */
  lemma LastKeyIff<V>(keys: seq<Key<V>>, time: real)
    requires Increasing(keys) && |keys| > 0
    ensures KeyInterval(keys, time) == |keys| - 1 <==> (|keys| == 1 || keys[|keys| - 1].time <= time)
  {
    if keys[|keys| - 1].time <= time {
      PastEndFrom(keys, time, 0);
    }
  }

  /**
    The value of a vector track: the last key's value from the last key's
    time on (or with a single key); inside [t_i, t_{i+1}) the linear blend
    with factor f in [0, 1); before the first key the blend of the first two
    keys with a negative factor, i.e. extrapolation rather than clamping.
   */
  lemma InterpolateVectorValue(keys: seq<Key<Vec3>>, time: real)
    requires Increasing(keys) && |keys| > 0
    ensures |keys| == 1 || keys[|keys| - 1].time <= time ==>
      InterpolateVector(keys, time) == keys[|keys| - 1].value
    ensures forall i | 0 <= i < |keys| - 1 && keys[i].time <= time < keys[i + 1].time ::
      var f := (time - keys[i].time) / (keys[i + 1].time - keys[i].time);
      0.0 <= f < 1.0 && InterpolateVector(keys, time) == Lerp(keys[i].value, keys[i + 1].value, f)
    ensures |keys| > 1 && time < keys[0].time ==>
      var f := (time - keys[0].time) / (keys[1].time - keys[0].time);
      f < 0.0 && InterpolateVector(keys, time) == Lerp(keys[0].value, keys[1].value, f)
  {
    LastKeyIff(keys, time);
    forall i | 0 <= i < |keys| - 1 && keys[i].time <= time < keys[i + 1].time
      ensures var f := (time - keys[i].time) / (keys[i + 1].time - keys[i].time);
        0.0 <= f < 1.0 && InterpolateVector(keys, time) == Lerp(keys[i].value, keys[i + 1].value, f)
    {
      BracketSelectsKey(keys, time, i);
      FactorInUnit(time - keys[i].time, keys[i + 1].time - keys[i].time);
    }
    if |keys| > 1 && time < keys[0].time {
      assert KeyInterval(keys, time) == 0;
      FactorNegative(time - keys[0].time, keys[1].time - keys[0].time);
    }
  }

  /** The blend factor the search produces is below 1, and negative exactly before the first key. */
  lemma BlendFactorBounds<V>(keys: seq<Key<V>>, time: real)
    requires Increasing(keys) && |keys| > 1
    requires KeyInterval(keys, time) < |keys| - 1
    ensures var f := BlendFactor(keys, KeyInterval(keys, time), time);
      f < 1.0 && (f < 0.0 <==> time < keys[0].time)
  {
    var i := KeyInterval(keys, time);
    if time < keys[0].time {
      FactorNegative(time - keys[i].time, keys[i + 1].time - keys[i].time);
    } else {
      FactorInUnit(time - keys[i].time, keys[i + 1].time - keys[i].time);
    }
  }

  lemma FactorInUnit(a: real, d: real)
    requires 0.0 <= a < d
    ensures 0.0 <= a / d < 1.0
  {
    assert a / d * d == a;
  }

  lemma FactorNegative(a: real, d: real)
    requires a < 0.0 < d
    ensures a / d < 0.0
  {
    assert a / d * d == a;
  }
}
