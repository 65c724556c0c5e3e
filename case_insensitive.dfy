/**
  `HashSet<string>` and `Dictionary<string, V>` built with `StringComparer.OrdinalIgnoreCase`,
  as insertion-ordered sequences. An element or key keeps the spelling it was first added
  with; a later spelling that differs only in case finds the same slot.
*/
module CaseInsensitive {
  import opened Wrappers
  import opened Text

  /** No two strings of `xs` are equal ignoring case. */
  ghost predicate Distinct(xs: seq<string>) {
    forall i, j | 0 <= i < j < |xs| :: !EqualsIgnoreCase(xs[i], xs[j])
  }

  datatype CiSet = CiSet(items: seq<string>) {

    ghost predicate Valid() {
      Distinct(items)
    }

    /** `HashSet.Contains`. */
    predicate Contains(x: string)
      ensures Contains(x) <==> exists i | 0 <= i < |items| :: EqualsIgnoreCase(items[i], x)
    {
      IndexOf(items, x, true).Some?
    }

    function Count(): nat {
      |items|
    }

    /** `HashSet.Add`: a string already present ignoring case leaves the set as it is. */
    function Add(x: string): (s: CiSet)
      ensures Contains(x) ==> s == this
      ensures !Contains(x) ==> s.items == items + [x]
      ensures Valid() ==> s.Valid()
    {
      if Contains(x) then this else CiSet(items + [x])
    }
  }

  /** After `Add(x)` the set contains what it contained before and every spelling of `x`. */
  lemma AddContains(s: CiSet, x: string, y: string)
    ensures s.Add(x).Contains(y) <==> s.Contains(y) || EqualsIgnoreCase(x, y)
  {
    if !s.Contains(x) && EqualsIgnoreCase(x, y) {
      assert s.Add(x).items[|s.items|] == x;
    }
    if s.Contains(x) && EqualsIgnoreCase(x, y) {
      var i :| 0 <= i < |s.items| && EqualsIgnoreCase(s.items[i], x);
      assert EqualsIgnoreCase(s.items[i], y);
    }
    if !s.Contains(x) && s.Add(x).Contains(y) && !EqualsIgnoreCase(x, y) {
      var i :| 0 <= i < |s.Add(x).items| && EqualsIgnoreCase(s.Add(x).items[i], y);
      assert i < |s.items| && s.items[i] == s.Add(x).items[i];
    }
    if !s.Contains(x) && s.Contains(y) {
      var i :| 0 <= i < |s.items| && EqualsIgnoreCase(s.items[i], y);
      assert s.Add(x).items[i] == s.items[i];
    }
  }

  const EmptySet := CiSet([])

  /** The set that adding the strings of `xs` one by one to an empty set builds. */
  function SetOf(xs: seq<string>): CiSet {
    if |xs| == 0 then EmptySet else SetOf(xs[..|xs| - 1]).Add(xs[|xs| - 1])
  }

  /** The set holds exactly the strings of `xs` up to case. */
  lemma {:induction false} SetOfContains(xs: seq<string>, y: string)
    ensures SetOf(xs).Contains(y) <==> exists i | 0 <= i < |xs| :: EqualsIgnoreCase(xs[i], y)
  {
    if |xs| > 0 {
      var init := xs[..|xs| - 1];
      SetOfContains(init, y);
      AddContains(SetOf(init), xs[|xs| - 1], y);
      if exists i | 0 <= i < |xs| :: EqualsIgnoreCase(xs[i], y) {
        var i :| 0 <= i < |xs| && EqualsIgnoreCase(xs[i], y);
        if i < |init| {
          assert init[i] == xs[i];
        }
      }
      if SetOf(init).Contains(y) {
        var i :| 0 <= i < |init| && EqualsIgnoreCase(init[i], y);
        assert xs[i] == init[i];
      }
    }
  }

  /** Each string of `xs` is kept once, in one of its spellings from `xs`. */
  lemma {:induction false} SetOfShape(xs: seq<string>)
    ensures SetOf(xs).Valid()
    ensures SetOf(xs).Count() <= |xs|
    ensures forall k | 0 <= k < SetOf(xs).Count() :: SetOf(xs).items[k] in xs
  {
    if |xs| > 0 {
      var init := xs[..|xs| - 1];
      SetOfShape(init);
      assert forall k | 0 <= k < SetOf(init).Count() :: SetOf(init).items[k] in init;
    }
  }

  datatype CiDictionary<V> = CiDictionary(entries: seq<(string, V)>) {

    function Keys(): (ks: seq<string>)
      ensures |ks| == |entries|
      ensures forall i | 0 <= i < |entries| :: ks[i] == entries[i].0
    {
      seq(|entries|, i requires 0 <= i < |entries| => entries[i].0)
    }

    ghost predicate Valid() {
      Distinct(Keys())
    }

    /** `TryGetValue`. */
    function TryGetValue(key: string): Option<V> {
      match IndexOf(Keys(), key, true)
      case Some(i) => Some(entries[i].1)
      case None => None
    }

    /** The indexer's setter `d[key] = value`: replaces the value of a key present ignoring
        case (keeping that key's first spelling), otherwise appends the new key. */
    function Set(key: string, value: V): (d: CiDictionary<V>)
      ensures d.Keys() == if TryGetValue(key).Some? then Keys() else Keys() + [key]
    {
      match IndexOf(Keys(), key, true)
      case Some(i) =>
        var d := CiDictionary(entries[i := (entries[i].0, value)]);
        assert d.Keys() == Keys();
        d
      case None => CiDictionary(entries + [(key, value)])
    }
  }

  /** Looking a key up after `Set` finds the new value under every spelling of that key and
      the old value under every other key. */
  lemma SetThenLookup<V>(d: CiDictionary<V>, key: string, value: V, probe: string)
    requires d.Valid()
    ensures d.Set(key, value).Valid()
    ensures d.Set(key, value).TryGetValue(probe) ==
              if EqualsIgnoreCase(key, probe) then Some(value) else d.TryGetValue(probe)
  {
    if IndexOf(d.Keys(), key, true).Some? {
      ReplaceThenLookup(d, key, value, probe);
    } else {
      AppendThenLookup(d, key, value, probe);
    }
  }

  lemma ReplaceThenLookup<V>(d: CiDictionary<V>, key: string, value: V, probe: string)
    requires d.Valid() && IndexOf(d.Keys(), key, true).Some?
    ensures d.Set(key, value).Valid()
    ensures d.Set(key, value).TryGetValue(probe) ==
              if EqualsIgnoreCase(key, probe) then Some(value) else d.TryGetValue(probe)
  {
    var ks := d.Keys();
    var i := IndexOf(ks, key, true).value;
    assert d.Set(key, value).Keys() == ks;
    match IndexOf(ks, probe, true) {
      case Some(j) =>
        if EqualsIgnoreCase(key, probe) {
          assert EqualsIgnoreCase(ks[i], ks[j]);
          assert i == j;
        } else {
          assert i != j;
        }
      case None =>
    }
  }

  lemma AppendThenLookup<V>(d: CiDictionary<V>, key: string, value: V, probe: string)
    requires d.Valid() && IndexOf(d.Keys(), key, true).None?
    ensures d.Set(key, value).Valid()
    ensures d.Set(key, value).TryGetValue(probe) ==
              if EqualsIgnoreCase(key, probe) then Some(value) else d.TryGetValue(probe)
  {
    AppendStaysDistinct(d, key, value);
    AppendLookup(d, key, value, probe);
  }

  lemma AppendStaysDistinct<V>(d: CiDictionary<V>, key: string, value: V)
    requires d.Valid() && IndexOf(d.Keys(), key, true).None?
    ensures d.Set(key, value).Valid()
  {
    var ks := d.Keys();
    assert d.Set(key, value).Keys() == ks + [key];
  }

  lemma AppendLookup<V>(d: CiDictionary<V>, key: string, value: V, probe: string)
    requires IndexOf(d.Keys(), key, true).None?
    ensures d.Set(key, value).TryGetValue(probe) ==
              if EqualsIgnoreCase(key, probe) then Some(value) else d.TryGetValue(probe)
  {
    var ks := d.Keys();
    var d' := d.Set(key, value);
    var ks' := d'.Keys();
    assert d'.entries == d.entries + [(key, value)];
    assert forall j | 0 <= j < |ks| :: ks'[j] == ks[j] && !EqualsIgnoreCase(ks[j], key);
    match IndexOf(ks, probe, true)
    case Some(j) =>
      IndexOfFirstMatch(ks', probe, true, j);
    case None =>
      if EqualsIgnoreCase(key, probe) {
        IndexOfFirstMatch(ks', probe, true, |ks|);
      } else {
        IndexOfNoMatch(ks', probe, true);
      }
  }

  /** A lookup does not depend on the spelling of the key. */
  lemma LookupIgnoresCase<V>(d: CiDictionary<V>, a: string, b: string)
    requires EqualsIgnoreCase(a, b)
    ensures d.TryGetValue(a) == d.TryGetValue(b)
  {
    IndexOfRespectsCase(d.Keys(), a, b);
  }
}
