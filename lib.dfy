/**
 * `DatabaseOptions`: the global engine options plus the options of every
 * named partition, built up one entity type at a time before opening.
 */
module Lib {
  import opened Wrappers
  import opened Engine
  import opened Entries

  /** `options` and the `cf_options` map keyed by partition name. */
  datatype DatabaseOptions = DatabaseOptions(options: Options, cfOptions: map<string, Options>)

  /** The order of `&str` keys in a `BTreeMap`: lexicographic on characters. */
  predicate StrLess(a: string, b: string)
  {
    if |a| == 0 then |b| > 0
    else |b| > 0 && (a[0] < b[0] || (a[0] == b[0] && StrLess(a[1..], b[1..])))
  }

  lemma {:induction false} StrLessIrreflexive(a: string)
    ensures !StrLess(a, a)
  {
    if |a| > 0 {
      StrLessIrreflexive(a[1..]);
    }
  }

  lemma {:induction false} StrLessTransitive(a: string, b: string, c: string)
    requires StrLess(a, b) && StrLess(b, c)
    ensures StrLess(a, c)
  {
    if |a| > 0 && a[0] == b[0] && b[0] == c[0] {
      StrLessTransitive(a[1..], b[1..], c[1..]);
    }
  }

  lemma {:induction false} StrLessTotal(a: string, b: string)
    requires a != b
    ensures StrLess(a, b) || StrLess(b, a)
  {
    if |a| > 0 && |b| > 0 && a[0] == b[0] {
      assert a == [a[0]] + a[1..] && b == [b[0]] + b[1..];
      StrLessTotal(a[1..], b[1..]);
    }
  }

  /** `x` is the smallest name of `names`. */
  predicate IsLeast(x: string, names: set<string>)
  {
    x in names && forall y | y in names :: y == x || StrLess(x, y)
  }

  lemma {:induction false} LeastExists(names: set<string>)
    requires names != {}
    ensures exists x :: IsLeast(x, names)
    decreases |names|
  {
    var y :| y in names;
    var rest := names - {y};
    if rest == {} {
      assert names == {y};
      assert IsLeast(y, names);
    } else {
      LeastExists(rest);
      var z :| IsLeast(z, rest);
      if StrLess(y, z) {
        forall w | w in names && w != y ensures StrLess(y, w) {
          if w != z {
            StrLessTransitive(y, z, w);
          }
        }
        assert IsLeast(y, names);
      } else {
        StrLessTotal(y, z);
        assert IsLeast(z, names);
      }
    }
  }

  lemma LeastUnique(x: string, y: string, names: set<string>)
    requires IsLeast(x, names) && IsLeast(y, names)
    ensures x == y
  {
    if x != y {
      assert StrLess(x, y) && StrLess(y, x);
      StrLessTransitive(x, y, x);
      StrLessIrreflexive(x);
    }
  }

  /** The names of a set in ascending order, each once (a `BTreeMap`'s key order). */
  function SortedNames(names: set<string>): (r: seq<string>)
    ensures |r| == |names|
    ensures forall n :: n in r <==> n in names
    ensures forall i, j :: 0 <= i < j < |r| ==> StrLess(r[i], r[j])
    decreases |names|
  {
    if names == {} then []
    else
      LeastExists(names);
      assert forall a, b :: IsLeast(a, names) && IsLeast(b, names) ==> a == b by {
        forall a, b | IsLeast(a, names) && IsLeast(b, names) ensures a == b {
          LeastUnique(a, b, names);
        }
      }
      var x :| IsLeast(x, names);
      var rest := SortedNames(names - {x});
      assert forall j :: 0 <= j < |rest| ==> StrLess(x, rest[j]) by {
        forall j | 0 <= j < |rest| ensures StrLess(x, rest[j]) {
          assert rest[j] in names - {x};
        }
      }
      [x] + rest
  }

  /** One descriptor per name of `names`, in the same order, each with that partition's options. */
  function Describe(o: DatabaseOptions, names: seq<string>): (r: seq<ColumnFamilyDescriptor>)
    requires forall i :: 0 <= i < |names| ==> names[i] in o.cfOptions
    ensures |r| == |names|
    ensures forall i :: 0 <= i < |r| ==> r[i] == ColumnFamilyDescriptor(names[i], o.cfOptions[names[i]])
  {
    seq(|names|, i requires 0 <= i < |names| => ColumnFamilyDescriptor(names[i], o.cfOptions[names[i]]))
  }

  /** `column_families`: one descriptor per configured partition, in ascending name order. */
  function ColumnFamilies(o: DatabaseOptions): (r: seq<ColumnFamilyDescriptor>)
    ensures |r| == |o.cfOptions|
    ensures forall i :: 0 <= i < |r| ==> r[i].name in o.cfOptions && r[i].options == o.cfOptions[r[i].name]
    ensures forall n :: n in o.cfOptions ==> exists i :: 0 <= i < |r| && r[i].name == n
    ensures forall i, j :: 0 <= i < j < |r| ==> StrLess(r[i].name, r[j].name)
    ensures r == [] <==> o.cfOptions == map[]
  {
    var names := SortedNames(o.cfOptions.Keys);
    assert |o.cfOptions.Keys| == |o.cfOptions|;
    DescribeCovers(o, names);
    Describe(o, names)
  }

  /** Describing a listing of all the partition names describes every partition, and nothing when there are none. */
  lemma DescribeCovers(o: DatabaseOptions, names: seq<string>)
    requires |names| == |o.cfOptions| && forall n :: n in names <==> n in o.cfOptions.Keys
    ensures forall n :: n in o.cfOptions ==> exists i :: 0 <= i < |Describe(o, names)| && Describe(o, names)[i].name == n
    ensures Describe(o, names) == [] <==> o.cfOptions == map[]
  {
    var r := Describe(o, names);
    forall n | n in o.cfOptions ensures exists i :: 0 <= i < |r| && r[i].name == n {
      assert n in o.cfOptions.Keys;
      var i :| 0 <= i < |names| && names[i] == n;
      assert r[i].name == n;
    }
    assert o.cfOptions == map[] <==> |o.cfOptions| == 0;
  }

  /** Names in ascending order are distinct, so no partition is described twice. */
  lemma ColumnFamiliesDistinct(o: DatabaseOptions)
    ensures forall i, j :: 0 <= i < j < |ColumnFamilies(o)| ==> ColumnFamilies(o)[i].name != ColumnFamilies(o)[j].name
  {
    var r := ColumnFamilies(o);
    forall i, j | 0 <= i < j < |r| ensures r[i].name != r[j].name {
      StrLessIrreflexive(r[i].name);
    }
  }

  /** `cf_options.entry(name).or_default()`: the partition's options, or the engine defaults when it has none yet. */
  function PartitionOptions(o: DatabaseOptions, name: string): Options
  {
    if name in o.cfOptions then o.cfOptions[name] else DefaultOptions()
  }

  /**
   * `add::<E>`: a named entity gets an entry in `cf_options` (an existing one is
   * kept); its merge operator, if any, goes on that partition's options, or on
   * the global options when the entity is unnamed.
   */
  function Add<K, V>(o: DatabaseOptions, e: Entry<K, V>): (r: DatabaseOptions)
    ensures e.name.Some? ==> r.cfOptions.Keys == o.cfOptions.Keys + {e.name.value} && r.options == o.options
    ensures e.name.None? ==> r.cfOptions == o.cfOptions
    ensures forall n :: n in o.cfOptions && Some(n) != e.name ==> r.cfOptions[n] == o.cfOptions[n]
    ensures e.associativeMerge.None? && (e.name.None? || e.name.value in o.cfOptions) ==> r == o
    ensures e.associativeMerge.Some? && e.name.Some? ==>
      r.cfOptions[e.name.value] == PartitionOptions(o, e.name.value).(mergeOperator := e.associativeMerge)
    ensures e.associativeMerge.Some? && e.name.None? ==> r.options == o.options.(mergeOperator := e.associativeMerge)
    ensures e.associativeMerge.None? && e.name.Some? ==> r.cfOptions[e.name.value] == PartitionOptions(o, e.name.value)
  {
    var o1 := match e.name
      case Some(n) => o.(cfOptions := o.cfOptions[n := PartitionOptions(o, n)])
      case None => o;
    match e.associativeMerge
    case None => o1
    case Some(m) =>
      match e.name
      case Some(n) => o1.(cfOptions := o1.cfOptions[n := PartitionOptions(o1, n).(mergeOperator := Some(m))])
      case None => o1.(options := o1.options.(mergeOperator := Some(m)))
  }

  /** Registering the same entity type twice is the same as registering it once. */
  lemma AddIdempotent<K, V>(o: DatabaseOptions, e: Entry<K, V>)
    ensures Add(Add(o, e), e) == Add(o, e)
  {
    var o1 := Add(o, e);
    if e.name.Some? {
      var n := e.name.value;
      assert Add(o1, e).cfOptions.Keys == o1.cfOptions.Keys;
      assert Add(o1, e).cfOptions[n] == o1.cfOptions[n];
      assert Add(o1, e).cfOptions == o1.cfOptions;
    }
  }

  /** Entity types with different names can be registered in either order. */
  lemma AddCommutes<K1, V1, K2, V2>(o: DatabaseOptions, e1: Entry<K1, V1>, e2: Entry<K2, V2>)
    requires e1.name != e2.name
    ensures Add(Add(o, e1), e2) == Add(Add(o, e2), e1)
  {
    var a := Add(Add(o, e1), e2);
    var b := Add(Add(o, e2), e1);
    assert a.cfOptions.Keys == b.cfOptions.Keys;
    forall n | n in a.cfOptions ensures a.cfOptions[n] == b.cfOptions[n] {
    }
    assert a.cfOptions == b.cfOptions;
  }

  /** The two options values agree in everything but the prefix extractor. */
  predicate SameButExtractor(a: Options, b: Options)
  {
    a.(prefixExtractor := None) == b.(prefixExtractor := None)
  }

  /**
   * `add_indexed::<N, E>`: `add::<E>`, then an `n`-byte fixed prefix extractor
   * on the entity's partition, or globally when the entity is unnamed.
   */
  function AddIndexed<K, V, I>(o: DatabaseOptions, ix: Indexed<K, V, I>): (r: DatabaseOptions)
    ensures r.cfOptions.Keys == Add(o, ix.entry).cfOptions.Keys
    ensures forall n :: n in o.cfOptions && Some(n) != ix.entry.name ==> r.cfOptions[n] == o.cfOptions[n]
    ensures ix.entry.name.Some? ==> r.options == o.options
    ensures ix.entry.name.Some? ==>
      r.cfOptions[ix.entry.name.value].prefixExtractor == Some(ix.n) &&
      SameButExtractor(r.cfOptions[ix.entry.name.value], Add(o, ix.entry).cfOptions[ix.entry.name.value])
    ensures ix.entry.name.None? ==>
      r.options.prefixExtractor == Some(ix.n) && SameButExtractor(r.options, Add(o, ix.entry).options) &&
      r.cfOptions == o.cfOptions
  {
    var o1 := Add(o, ix.entry);
    match ix.entry.name
    case Some(n) => o1.(cfOptions := o1.cfOptions[n := PartitionOptions(o1, n).(prefixExtractor := Some(ix.n))])
    case None => o1.(options := o1.options.(prefixExtractor := Some(ix.n)))
  }

  /** Registering the same indexed entity type twice is the same as registering it once. */
  lemma AddIndexedIdempotent<K, V, I>(o: DatabaseOptions, ix: Indexed<K, V, I>)
    ensures AddIndexed(AddIndexed(o, ix), ix) == AddIndexed(o, ix)
  {
    var o1 := AddIndexed(o, ix);
    var o2 := AddIndexed(o1, ix);
    if ix.entry.name.Some? {
      var n := ix.entry.name.value;
      assert o2.cfOptions.Keys == o1.cfOptions.Keys;
      assert o2.cfOptions[n] == o1.cfOptions[n];
      assert o2.cfOptions == o1.cfOptions;
    }
  }

  /** `DatabaseOptions::default()`: missing database and partitions are created; no partition is configured. */
  function Default(): (r: DatabaseOptions)
    ensures r.options.createIfMissing && r.options.createMissingColumnFamilies
    ensures r.options.prefixExtractor.None? && r.options.mergeOperator.None?
    ensures ColumnFamilies(r) == []
  {
    DatabaseOptions(DefaultOptions().(createIfMissing := true, createMissingColumnFamilies := true), map[])
  }
}
