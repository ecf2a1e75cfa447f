/**
  IControl: named 32-bit integer votes reduced to their maximum or their
  minimum. Reading a name that holds no vote stores the sentinel that can
  never win the reduction.
*/
module IntControls {
  import opened Primitives
  import opened Dictionaries

  /** Whether the conversion to int takes the smallest or the largest vote. */
  datatype IControlMode = Minimum | Maximum

  /** The identity of the reduction: the value no vote can lose to. */
  function Sentinel(mode: IControlMode): (v: Int32)
    ensures forall x: Int32 :: Better(mode, x, v) == x
    ensures forall x: Int32 :: Better(mode, v, x) == x
  {
    match mode
    case Maximum => MinValue
    case Minimum => MaxValue
  }

  /** One step of the reduction: a vote replaces the running extreme only when strictly beyond it. */
  function Better(mode: IControlMode, acc: Int32, v: Int32): (r: Int32)
    ensures r == acc || r == v
    ensures mode == Maximum ==> acc <= r && v <= r && (r != acc ==> v > acc)
    ensures mode == Minimum ==> r <= acc && r <= v && (r != acc ==> v < acc)
  {
    match mode
    case Maximum => if v > acc then v else acc
    case Minimum => if v < acc then v else acc
  }

  /** The reduction of `s`, scanned left to right from the sentinel. */
  function Extreme(mode: IControlMode, s: seq<Int32>): Int32 {
    if s == [] then Sentinel(mode) else Better(mode, Extreme(mode, s[..|s| - 1]), s[|s| - 1])
  }

  /**
    In Maximum mode the reduction bounds every vote from above, in Minimum
    mode from below; it is one of the votes when there are any, and the
    sentinel when there are none.
  */
  lemma {:induction false} ExtremeIsExtreme(mode: IControlMode, s: seq<Int32>)
    ensures mode == Maximum ==> forall i :: 0 <= i < |s| ==> s[i] <= Extreme(mode, s)
    ensures mode == Minimum ==> forall i :: 0 <= i < |s| ==> Extreme(mode, s) <= s[i]
    ensures s != [] ==> Extreme(mode, s) in s
    ensures s == [] ==> Extreme(mode, s) == Sentinel(mode)
  {
    if s != [] {
      var p := s[..|s| - 1];
      ExtremeIsExtreme(mode, p);
      assert forall i :: 0 <= i < |p| ==> s[i] == p[i];
      if p != [] {
        assert Extreme(mode, p) in s;
      }
    }
  }

  /** Appending the sentinel leaves the reduction unchanged. */
  lemma SentinelIsNeutral(mode: IControlMode, s: seq<Int32>)
    ensures Extreme(mode, s + [Sentinel(mode)]) == Extreme(mode, s)
  {
    assert (s + [Sentinel(mode)])[..|s|] == s;
  }

  /** The reduction of a dictionary's votes, stated over the dictionary itself. */
  lemma ExtremeOfDict(mode: IControlMode, d: Dict<string, Int32>)
    requires d.Valid()
    ensures mode == Maximum ==> forall k :: k in d.vals ==> d.vals[k] <= Extreme(mode, d.Values())
    ensures mode == Minimum ==> forall k :: k in d.vals ==> Extreme(mode, d.Values()) <= d.vals[k]
    ensures d.vals != map[] ==> exists k :: k in d.vals && d.vals[k] == Extreme(mode, d.Values())
    ensures d.vals == map[] ==> Extreme(mode, d.Values()) == Sentinel(mode)
  {
    var s := d.Values();
    var r := Extreme(mode, s);
    ExtremeIsExtreme(mode, s);
    forall k | k in d.vals
      ensures mode == Maximum ==> d.vals[k] <= r
      ensures mode == Minimum ==> r <= d.vals[k]
    {
      var j :| 0 <= j < |d.keys| && d.keys[j] == k;
      assert s[j] == d.vals[k];
    }
    if d.vals != map[] {
      var k :| k in d.vals;
      assert s != [];
      var j :| 0 <= j < |s| && s[j] == r;
      assert d.keys[j] in d.vals;
    }
  }

  class IControl {
    var Controls: Dict<string, Int32>
    var mode: IControlMode

    ghost predicate Valid()
      reads this
    {
      Controls.Valid()
    }

    /** What the conversion to int returns in the current state. */
    ghost function Aggregate(): Int32
      reads this
      requires Valid()
    {
      Extreme(mode, Controls.Values())
    }

    /** `new IControl(mode)`, which the conversion from `IControlMode` also calls. */
    constructor (mode: IControlMode)
      ensures Valid() && this.mode == mode && Controls == Empty()
      ensures Aggregate() == Sentinel(mode)
    {
      Controls := Empty();
      this.mode := mode;
    }

    /**
      The getter: the stored vote, or, for a name with none, the sentinel,
      which is stored before it is returned. Either way the conversion to
      int is unaffected.
    */
    method Get(key: string) returns (v: Int32)
      requires Valid()
      modifies this
      ensures Valid() && mode == old(mode)
      ensures key in old(Controls.vals) ==> v == old(Controls.vals[key]) && Controls == old(Controls)
      ensures key !in old(Controls.vals) ==> v == Sentinel(mode) && Controls == old(Controls).Put(key, v)
      ensures key in Controls.vals && Controls.vals[key] == v
      ensures Aggregate() == old(Aggregate())
    {
      if key in Controls.vals {
        return Controls.vals[key];
      }
      var val: Int32 := 0;
      match mode {
        case Maximum => val := MinValue;
        case Minimum => val := MaxValue;
      }
      PutAbsentValues(Controls, key, val);
      SentinelIsNeutral(mode, Controls.Values());
      Controls := Controls.Put(key, val);
      return val;
    }

    /** The setter overwrites or adds the vote; a later `Get(key)` returns `value`. */
    method Set(key: string, value: Int32)
      requires Valid()
      modifies this
      ensures Valid() && mode == old(mode)
      ensures Controls == old(Controls).Put(key, value)
      ensures key in Controls.vals && Controls.vals[key] == value
      ensures forall k :: k != key && k in old(Controls.vals) ==> k in Controls.vals && Controls.vals[k] == old(Controls.vals[k])
    {
      Controls := Controls.Put(key, value);
    }

    /**
      The conversion to int: in Maximum mode the largest vote, in Minimum
      mode the smallest, and the mode's sentinel when there are no votes.
    */
    method ToInt() returns (r: Int32)
      requires Valid()
      ensures r == Aggregate()
      ensures mode == Maximum ==> forall k :: k in Controls.vals ==> Controls.vals[k] <= r
      ensures mode == Minimum ==> forall k :: k in Controls.vals ==> r <= Controls.vals[k]
      ensures Controls.vals != map[] ==> exists k :: k in Controls.vals && Controls.vals[k] == r
      ensures Controls.vals == map[] ==> r == Sentinel(mode)
    {
      match mode {
        case Maximum =>
          r := MaxScan(Controls);
        case Minimum =>
          r := MinScan(Controls);
      }
      ExtremeOfDict(mode, Controls);
    }
  }

  /** The Maximum-mode `foreach`: the running maximum starts at `int.MinValue`. */
  method MaxScan(d: Dict<string, Int32>) returns (max: Int32)
    requires d.Valid()
    ensures max == Extreme(Maximum, d.Values())
  {
    ghost var s := d.Values();
    max := MinValue;
    var i := 0;
    while i < |d.keys|
      invariant 0 <= i <= |d.keys|
      invariant max == Extreme(Maximum, s[..i])
    {
      assert s[..i + 1][..i] == s[..i];
      var v := d.vals[d.keys[i]];
      if v > max {
        max := v;
      }
      i := i + 1;
    }
    assert s[..i] == s;
  }

  /** The Minimum-mode `foreach`: the running minimum starts at `int.MaxValue`. */
  method MinScan(d: Dict<string, Int32>) returns (min: Int32)
    requires d.Valid()
    ensures min == Extreme(Minimum, d.Values())
  {
    ghost var s := d.Values();
    min := MaxValue;
    var i := 0;
    while i < |d.keys|
      invariant 0 <= i <= |d.keys|
      invariant min == Extreme(Minimum, s[..i])
    {
      assert s[..i + 1][..i] == s[..i];
      var v := d.vals[d.keys[i]];
      if v < min {
        min := v;
      }
      i := i + 1;
    }
    assert s[..i] == s;
  }
}
