/**
  XControl<T>: (active, priority, payload) triples in four key-spaces,
  reduced to the payload of the highest-priority entry whose active flag
  differs from the polarity `avoidTrue`. Ties go to the entry met first.
*/
module PriorityControls {
  import opened Primitives
  import opened Dictionaries

  /** The stored triple `(bool, int, T)`. */
  datatype Entry<T> = Entry(active: bool, priority: Int32, payload: T)

  /** The running state of the conversion: `res`, `max` and `val`. */
  datatype Pick<T> = Pick(res: bool, max: Int32, val: T)

  /** Where the conversion starts: the polarity, `int.MinValue` and the default payload. */
  function Start<T>(avoidTrue: bool, dflt: T): (p: Pick<T>)
    ensures p.res == avoidTrue && p.val == dflt && p.max == MinValue
  {
    Pick(avoidTrue, MinValue, dflt)
  }

  /** An entry that can win: active differs from the polarity and the priority exceeds `int.MinValue`. */
  predicate Qualifies<T>(avoidTrue: bool, e: Entry<T>) {
    e.active != avoidTrue && e.priority > MinValue
  }

  /** One iteration of a `foreach`: a candidate with strictly greater priority takes over. */
  function Step<T>(avoidTrue: bool, p: Pick<T>, e: Entry<T>): (r: Pick<T>)
    ensures r != p <==> e.active != avoidTrue && e.priority > p.max
    ensures r != p ==> r.res == !avoidTrue && r.max == e.priority && r.val == e.payload
    ensures p.max <= r.max
  {
    if e.active != avoidTrue && e.priority > p.max then Pick(!avoidTrue, e.priority, e.payload) else p
  }

  /** From the start state, exactly the qualifying entries take over. */
  lemma StartMovesOnlyOnQualifying<T>(avoidTrue: bool, dflt: T, e: Entry<T>)
    ensures Step(avoidTrue, Start(avoidTrue, dflt), e) != Start(avoidTrue, dflt) <==> Qualifies(avoidTrue, e)
  {
  }

  /** The state after scanning `s` left to right from `p`. */
  function Fold<T>(avoidTrue: bool, p: Pick<T>, s: seq<Entry<T>>): Pick<T> {
    if s == [] then p else Step(avoidTrue, Fold(avoidTrue, p, s[..|s| - 1]), s[|s| - 1])
  }

  /** Scanning `s` then `t` is scanning `s + t`: the four loops make one scan. */
  lemma {:induction false} FoldAppend<T>(avoidTrue: bool, p: Pick<T>, s: seq<Entry<T>>, t: seq<Entry<T>>)
    ensures Fold(avoidTrue, Fold(avoidTrue, p, s), t) == Fold(avoidTrue, p, s + t)
  {
    if t == [] {
      assert s + t == s;
    } else {
      FoldAppend(avoidTrue, p, s, t[..|t| - 1]);
      assert (s + t)[..|s + t| - 1] == s + t[..|t| - 1];
    }
  }

  /**
    `w` is the entry the scan order selects: it qualifies, no qualifying
    entry has a greater priority, and every qualifying entry before it has
    a strictly smaller one.
  */
  ghost predicate IsWinner<T>(avoidTrue: bool, s: seq<Entry<T>>, w: int) {
    0 <= w < |s| && Qualifies(avoidTrue, s[w]) &&
    (forall j :: 0 <= j < |s| && Qualifies(avoidTrue, s[j]) ==> s[j].priority <= s[w].priority) &&
    (forall j :: 0 <= j < w && Qualifies(avoidTrue, s[j]) ==> s[j].priority < s[w].priority)
  }

  ghost predicate AnyQualifies<T>(avoidTrue: bool, s: seq<Entry<T>>) {
    exists j :: 0 <= j < |s| && Qualifies(avoidTrue, s[j])
  }

  /** At most one entry is selected. */
  lemma WinnerIsUnique<T>(avoidTrue: bool, s: seq<Entry<T>>, w1: int, w2: int)
    requires IsWinner(avoidTrue, s, w1) && IsWinner(avoidTrue, s, w2)
    ensures w1 == w2
  {
  }

  /**
    One more entry after a prefix whose selected entry is `w`: the new
    entry is selected if it takes over, otherwise `w` stays selected.
  */
  lemma WinnerStep<T>(avoidTrue: bool, s: seq<Entry<T>>, w: int, before: Pick<T>)
    requires |s| > 0 && IsWinner(avoidTrue, s[..|s| - 1], w)
    requires before.max == s[w].priority
    ensures Step(avoidTrue, before, s[|s| - 1]) != before ==> IsWinner(avoidTrue, s, |s| - 1)
    ensures Step(avoidTrue, before, s[|s| - 1]) == before ==> IsWinner(avoidTrue, s, w)
  {
    var n := |s| - 1;
    var p, e := s[..n], s[n];
    assert p[w] == s[w];
    if Step(avoidTrue, before, e) != before {
      forall j | 0 <= j < |s| && Qualifies(avoidTrue, s[j]) ensures s[j].priority <= s[n].priority {
        if j < n {
          assert p[j] == s[j];
        }
      }
      forall j | 0 <= j < n && Qualifies(avoidTrue, s[j]) ensures s[j].priority < s[n].priority {
        assert p[j] == s[j];
      }
    } else {
      forall j | 0 <= j < |s| && Qualifies(avoidTrue, s[j]) ensures s[j].priority <= s[w].priority {
        if j < n {
          assert p[j] == s[j];
        }
      }
      forall j | 0 <= j < w && Qualifies(avoidTrue, s[j]) ensures s[j].priority < s[w].priority {
        assert p[j] == s[j];
      }
    }
  }

  /**
    The scan from the start state yields `(avoidTrue, dflt)` when no entry
    qualifies, and otherwise `!avoidTrue` with the payload and priority of
    the selected entry.
  */
  lemma {:induction false} FoldSelectsWinner<T>(avoidTrue: bool, dflt: T, s: seq<Entry<T>>)
    ensures !AnyQualifies(avoidTrue, s) ==> Fold(avoidTrue, Start(avoidTrue, dflt), s) == Start(avoidTrue, dflt)
    ensures AnyQualifies(avoidTrue, s) ==>
      exists w :: IsWinner(avoidTrue, s, w) && Fold(avoidTrue, Start(avoidTrue, dflt), s) == Pick(!avoidTrue, s[w].priority, s[w].payload)
  {
    if s != [] {
      var n := |s| - 1;
      var p, e := s[..n], s[n];
      FoldSelectsWinner(avoidTrue, dflt, p);
      var before := Fold(avoidTrue, Start(avoidTrue, dflt), p);
      assert Fold(avoidTrue, Start(avoidTrue, dflt), s) == Step(avoidTrue, before, e);
      if AnyQualifies(avoidTrue, p) {
        var w :| IsWinner(avoidTrue, p, w) && before == Pick(!avoidTrue, p[w].priority, p[w].payload);
        assert p[w] == s[w];
        WinnerStep(avoidTrue, s, w, before);
      } else if Qualifies(avoidTrue, e) {
        forall j | 0 <= j < |s| && Qualifies(avoidTrue, s[j]) ensures j == n {
        }
        assert IsWinner(avoidTrue, s, n);
      } else {
        forall j | 0 <= j < |s| ensures !Qualifies(avoidTrue, s[j]) {
          if j < n {
            assert p[j] == s[j];
          }
        }
      }
    }
  }

  /**
    Two entries that both beat the running priority and tie with each
    other: the one met first is selected and the second does not replace it.
  */
  lemma TieGoesToFirst<T>(avoidTrue: bool, p: Pick<T>, a: Entry<T>, b: Entry<T>)
    requires a.active != avoidTrue && b.active != avoidTrue
    requires a.priority == b.priority && a.priority > p.max
    ensures Fold(avoidTrue, p, [a, b]) == Pick(!avoidTrue, a.priority, a.payload)
  {
    var s := [a, b];
    assert s[..1] == [a] && s[..1][..0] == [];
    assert Fold(avoidTrue, p, s[..1]) == Step(avoidTrue, p, a);
    assert Fold(avoidTrue, p, s) == Step(avoidTrue, Fold(avoidTrue, p, s[..1]), b);
  }

  /** One `foreach` over a dictionary of triples, continuing from `p`. */
  method ScanEntries<K, T>(d: Dict<K, Entry<T>>, avoidTrue: bool, p: Pick<T>) returns (r: Pick<T>)
    requires d.Valid()
    ensures r == Fold(avoidTrue, p, d.Values())
  {
    ghost var s := d.Values();
    r := p;
    var i := 0;
    while i < |d.keys|
      invariant 0 <= i <= |d.keys|
      invariant r == Fold(avoidTrue, p, s[..i])
    {
      assert s[..i + 1][..i] == s[..i];
      var e := d.vals[d.keys[i]];
      if e.active != avoidTrue && e.priority > r.max {
        r := Pick(!avoidTrue, e.priority, e.payload);
      }
      i := i + 1;
    }
    assert s[..i] == s;
  }

  class XControl<T> {
    var xmap_str: Dict<string, Entry<T>>
    var xmap_int: Dict<Int32, Entry<T>>
    var xmap_cmp: Dict<Component, Entry<T>>
    var xmap_null: Dict<ObjectKey, Entry<T>>
    var avoidTrue: bool
    /** `default(T)`, which the host language supplies for every type. */
    const defaultPayload: T

    ghost predicate Valid()
      reads this
    {
      xmap_str.Valid() && xmap_int.Valid() && xmap_cmp.Valid() && xmap_null.Valid()
    }

    /** Every entry in the order the conversion visits them: object, component, numeric, text. */
    ghost function ScanOrder(): seq<Entry<T>>
      reads this
      requires Valid()
    {
      xmap_null.Values() + xmap_cmp.Values() + xmap_int.Values() + xmap_str.Values()
    }

    /** `new XControl<T>()`: four empty dictionaries and polarity false. */
    constructor (defaultPayload: T)
      ensures Valid() && !avoidTrue && this.defaultPayload == defaultPayload
      ensures xmap_str == Empty() && xmap_int == Empty() && xmap_cmp == Empty() && xmap_null == Empty()
    {
      xmap_str := Empty();
      xmap_int := Empty();
      xmap_cmp := Empty();
      xmap_null := Empty();
      avoidTrue := false;
      this.defaultPayload := defaultPayload;
    }

    /** The conversion from bool: no entries, and `magnetValue` as the polarity. */
    constructor FromBool(magnetValue: bool, defaultPayload: T)
      ensures Valid() && avoidTrue == magnetValue && this.defaultPayload == defaultPayload
      ensures xmap_str == Empty() && xmap_int == Empty() && xmap_cmp == Empty() && xmap_null == Empty()
      ensures ScanOrder() == []
    {
      xmap_str := Empty();
      xmap_int := Empty();
      xmap_cmp := Empty();
      xmap_null := Empty();
      avoidTrue := magnetValue;
      this.defaultPayload := defaultPayload;
    }

    /** The triple an absent key reads as; it never qualifies. */
    function Absent(): (e: Entry<T>)
      reads this
      ensures !Qualifies(avoidTrue, e)
      ensures e.payload == defaultPayload
    {
      Entry(avoidTrue, MinValue, defaultPayload)
    }

    function GetInt(key: Int32): (e: Entry<T>)
      reads this
      ensures key in xmap_int.vals ==> e == xmap_int.vals[key]
      ensures key !in xmap_int.vals ==> e == Absent()
    {
      if key in xmap_int.vals then xmap_int.vals[key] else Absent()
    }

    function GetString(key: string): (e: Entry<T>)
      reads this
      ensures key in xmap_str.vals ==> e == xmap_str.vals[key]
      ensures key !in xmap_str.vals ==> e == Absent()
    {
      if key in xmap_str.vals then xmap_str.vals[key] else Absent()
    }

    function GetObject(key: ObjectKey): (e: Entry<T>)
      reads this
      ensures key in xmap_null.vals ==> e == xmap_null.vals[key]
      ensures key !in xmap_null.vals ==> e == Absent()
    {
      if key in xmap_null.vals then xmap_null.vals[key] else Absent()
    }

    function GetComponent(key: Component): (e: Entry<T>)
      reads this
      ensures key in xmap_cmp.vals ==> e == xmap_cmp.vals[key]
      ensures key !in xmap_cmp.vals ==> e == Absent()
    {
      if key in xmap_cmp.vals then xmap_cmp.vals[key] else Absent()
    }

    method SetInt(key: Int32, value: Entry<T>)
      requires Valid()
      modifies this
      ensures Valid()
      ensures xmap_int == old(xmap_int).Put(key, value)
      ensures GetInt(key) == value
      ensures forall k :: k != key ==> GetInt(k) == old(GetInt(k))
      ensures xmap_str == old(xmap_str) && xmap_cmp == old(xmap_cmp) && xmap_null == old(xmap_null)
      ensures avoidTrue == old(avoidTrue)
    {
      xmap_int := xmap_int.Put(key, value);
    }

    method SetString(key: string, value: Entry<T>)
      requires Valid()
      modifies this
      ensures Valid()
      ensures xmap_str == old(xmap_str).Put(key, value)
      ensures GetString(key) == value
      ensures forall k :: k != key ==> GetString(k) == old(GetString(k))
      ensures xmap_int == old(xmap_int) && xmap_cmp == old(xmap_cmp) && xmap_null == old(xmap_null)
      ensures avoidTrue == old(avoidTrue)
    {
      xmap_str := xmap_str.Put(key, value);
    }

    method SetObject(key: ObjectKey, value: Entry<T>)
      requires Valid()
      modifies this
      ensures Valid()
      ensures xmap_null == old(xmap_null).Put(key, value)
      ensures GetObject(key) == value
      ensures forall k :: k != key ==> GetObject(k) == old(GetObject(k))
      ensures xmap_str == old(xmap_str) && xmap_int == old(xmap_int) && xmap_cmp == old(xmap_cmp)
      ensures avoidTrue == old(avoidTrue)
    {
      xmap_null := xmap_null.Put(key, value);
    }

    method SetComponent(key: Component, value: Entry<T>)
      requires Valid()
      modifies this
      ensures Valid()
      ensures xmap_cmp == old(xmap_cmp).Put(key, value)
      ensures GetComponent(key) == value
      ensures forall k :: k != key ==> GetComponent(k) == old(GetComponent(k))
      ensures xmap_str == old(xmap_str) && xmap_int == old(xmap_int) && xmap_null == old(xmap_null)
      ensures avoidTrue == old(avoidTrue)
    {
      xmap_cmp := xmap_cmp.Put(key, value);
    }

    /**
      The conversion to `(bool, T)`: `(avoidTrue, default(T))` when no entry
      qualifies, otherwise `!avoidTrue` and the payload of the selected
      entry, the first in scan order among those of greatest priority.
    */
    method ToPair() returns (res: bool, val: T)
      requires Valid()
      ensures !AnyQualifies(avoidTrue, ScanOrder()) ==> res == avoidTrue && val == defaultPayload
      ensures AnyQualifies(avoidTrue, ScanOrder()) ==> res == !avoidTrue
      ensures AnyQualifies(avoidTrue, ScanOrder()) ==>
        exists w :: IsWinner(avoidTrue, ScanOrder(), w) && val == ScanOrder()[w].payload
    {
      var p := Start(avoidTrue, defaultPayload);
      ghost var start := p;
      p := ScanEntries(xmap_null, avoidTrue, p);
      p := ScanEntries(xmap_cmp, avoidTrue, p);
      FoldAppend(avoidTrue, start, xmap_null.Values(), xmap_cmp.Values());
      p := ScanEntries(xmap_int, avoidTrue, p);
      FoldAppend(avoidTrue, start, xmap_null.Values() + xmap_cmp.Values(), xmap_int.Values());
      p := ScanEntries(xmap_str, avoidTrue, p);
      FoldAppend(avoidTrue, start, xmap_null.Values() + xmap_cmp.Values() + xmap_int.Values(), xmap_str.Values());
      FoldSelectsWinner(avoidTrue, defaultPayload, ScanOrder());
      return p.res, p.val;
    }
  }
}
