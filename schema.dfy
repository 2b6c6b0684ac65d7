/**
 * The schema of a record type (fixedwidthtext/models.py, `Options`): the
 * fields declared in the type's body, named after their attributes and
 * ordered by declaration, with the sum of their widths.
 */
module Schemas {
  import opened Wrappers
  import opened Values
  import opened Fields

  /** `RESERVED_FIELD_NAMES`: `line` is taken by the record itself. */
  const ReservedNames: seq<string> := ["line"]

  /** An attribute of a record-type body: a field, or anything else. */
  datatype Member = FieldMember(field: Field) | Other

  /** The attributes of a record-type body, in the body's order. */
  type Attrs = seq<(string, Member)>

  /** The schema: every field under its attribute name, in order. */
  type Schema = seq<(string, Field)>

  /** A Python dict has one entry per key. */
  predicate DistinctKeys(attrs: Attrs) {
    forall i, j :: 0 <= i < j < |attrs| ==> attrs[i].0 != attrs[j].0
  }

  predicate DistinctNames(fs: Schema) {
    forall i, j :: 0 <= i < j < |fs| ==> fs[i].0 != fs[j].0
  }

  /** Every field's `name` is the attribute name it is declared under. */
  predicate NamesMatch(fs: Schema) {
    forall i :: 0 <= i < |fs| ==> fs[i].1.name == Some(fs[i].0)
  }

  predicate SortedByCounter(fs: Schema) {
    forall i, j :: 0 <= i < j < |fs| ==> fs[i].1.counter <= fs[j].1.counter
  }

  /** Some field is declared under a reserved name. */
  predicate DeclaresReserved(attrs: Attrs) {
    exists i :: 0 <= i < |attrs| && attrs[i].1.FieldMember? && attrs[i].0 in ReservedNames
  }

  /** `field.name = name`, for an attribute that is a field. */
  function NameMember(name: string, m: Member): (r: Member)
    ensures r.FieldMember? <==> m.FieldMember?
    ensures r.FieldMember? ==> r.field == m.field.(name := Some(name))
  {
    match m
    case FieldMember(f) => FieldMember(f.(name := Some(name)))
    case Other => Other
  }

  /** The attributes once `_add_fields_names` has named every field. */
  function Named(attrs: Attrs): (r: Attrs)
    ensures |r| == |attrs|
    ensures forall i :: 0 <= i < |attrs| ==> r[i] == (attrs[i].0, NameMember(attrs[i].0, attrs[i].1))
  {
    if |attrs| == 0 then []
    else Named(attrs[..|attrs| - 1]) + [(attrs[|attrs| - 1].0, NameMember(attrs[|attrs| - 1].0, attrs[|attrs| - 1].1))]
  }

  /** The attributes that carry a `creation_counter`, i.e. the fields, in attribute order. */
  function FieldsOf(attrs: Attrs): (r: Schema)
    ensures forall x :: x in r <==> exists i :: 0 <= i < |attrs| && attrs[i].1.FieldMember? && x == (attrs[i].0, attrs[i].1.field)
  {
    if |attrs| == 0 then []
    else
      var init := attrs[..|attrs| - 1];
      var last := attrs[|attrs| - 1];
      assert forall i :: 0 <= i < |init| ==> init[i] == attrs[i];
      if last.1.FieldMember? then FieldsOf(init) + [(last.0, last.1.field)] else FieldsOf(init)
  }

  /** `x` placed before the first entry whose counter is not smaller. */
  function InsertByCounter(x: (string, Field), fs: Schema): (r: Schema)
    ensures |r| == |fs| + 1
    ensures multiset(r) == multiset(fs) + multiset{x}
  {
    if |fs| == 0 then [x]
    else if x.1.counter <= fs[0].1.counter then [x] + fs
    else
      assert fs == [fs[0]] + fs[1..];
      [fs[0]] + InsertByCounter(x, fs[1..])
  }

  /** `sorted(fields, key=creation_counter)`: an insertion sort, stable like Python's. */
  function SortByCounter(fs: Schema): (r: Schema)
    ensures multiset(r) == multiset(fs)
  {
    if |fs| == 0 then []
    else
      assert fs == [fs[0]] + fs[1..];
      InsertByCounter(fs[0], SortByCounter(fs[1..]))
  }

  /** The widths of the fields added up. */
  function SumSizes(fs: Schema): nat {
    if |fs| == 0 then 0 else SumSizes(fs[..|fs| - 1]) + fs[|fs| - 1].1.size
  }

  // ------------------------------------------------------------- properties

  /** Inserting into a sorted schema keeps it sorted. */
  lemma {:induction false} InsertSorted(x: (string, Field), fs: Schema)
    requires SortedByCounter(fs)
    ensures SortedByCounter(InsertByCounter(x, fs))
  {
    if |fs| > 0 && x.1.counter > fs[0].1.counter {
      InsertSorted(x, fs[1..]);
      InsertAbove(x, fs[1..], fs[0].1.counter);
    }
  }

  /** Every entry after inserting `x` has a counter of at least `low`, when `x` and `fs` do. */
  lemma InsertAbove(x: (string, Field), fs: Schema, low: int)
    requires low <= x.1.counter && forall k :: 0 <= k < |fs| ==> low <= fs[k].1.counter
    ensures forall k :: 0 <= k < |InsertByCounter(x, fs)| ==> low <= InsertByCounter(x, fs)[k].1.counter
  {
    var r := InsertByCounter(x, fs);
    forall k | 0 <= k < |r| ensures low <= r[k].1.counter {
      assert r[k] in multiset(fs) + multiset{x};
      if r[k] != x {
        assert r[k] in fs;
      }
    }
  }

  /** The schema comes out ordered by `creation_counter`. */
  lemma {:induction false} SortSorted(fs: Schema)
    ensures SortedByCounter(SortByCounter(fs))
  {
    if |fs| > 0 {
      SortSorted(fs[1..]);
      InsertSorted(fs[0], SortByCounter(fs[1..]));
    }
  }

  /** A permutation of a schema with distinct names has distinct names. */
  lemma DistinctPermutation(fs: Schema, gs: Schema)
    requires multiset(fs) == multiset(gs) && DistinctNames(fs)
    ensures DistinctNames(gs)
  {
    forall i, j | 0 <= i < j < |gs| ensures gs[i].0 != gs[j].0 {
      if gs[i].0 == gs[j].0 {
        assert gs[i] in multiset(fs) && gs[j] in multiset(fs);
        var a :| 0 <= a < |fs| && fs[a] == gs[i];
        var b :| 0 <= b < |fs| && fs[b] == gs[j];
        if a == b {
          assert gs[i] == gs[j];
          PairCount(gs, i, j);
          SingleCount(fs, a);
          assert false;
        }
      }
    }
  }

  /** An entry found at two positions occurs at least twice. */
  lemma {:induction false} PairCount(gs: Schema, i: nat, j: nat)
    requires i < j < |gs| && gs[i] == gs[j]
    ensures multiset(gs)[gs[i]] >= 2
  {
    assert gs == gs[..i] + [gs[i]] + gs[i + 1..j] + [gs[j]] + gs[j + 1..];
  }

  /** In a schema with distinct names every entry occurs once. */
  lemma {:induction false} SingleCount(fs: Schema, a: nat)
    requires a < |fs| && DistinctNames(fs)
    ensures multiset(fs)[fs[a]] == 1
  {
    var rest := fs[..a] + fs[a + 1..];
    assert fs == fs[..a] + [fs[a]] + fs[a + 1..];
    assert fs[a] !in rest by {
      forall k | 0 <= k < |rest| ensures rest[k] != fs[a] {
        if k < a { assert rest[k] == fs[k]; } else { assert rest[k] == fs[k + 1]; }
      }
    }
    assert multiset(fs) == multiset(rest) + multiset{fs[a]};
  }

  /** A permutation keeps a property of every entry. */
  lemma NamesMatchPermutation(fs: Schema, gs: Schema)
    requires multiset(fs) == multiset(gs) && NamesMatch(fs)
    ensures NamesMatch(gs)
  {
    forall i | 0 <= i < |gs| ensures gs[i].1.name == Some(gs[i].0) {
      assert gs[i] in multiset(fs);
      var a :| 0 <= a < |fs| && fs[a] == gs[i];
    }
  }

  /** Naming the attributes and keeping the fields gives fields named after their keys, once each. */
  lemma NamedFields(attrs: Attrs)
    requires DistinctKeys(attrs)
    ensures DistinctNames(FieldsOf(Named(attrs))) && NamesMatch(FieldsOf(Named(attrs)))
  {
    FieldsOfDistinct(Named(attrs));
    var fs := FieldsOf(Named(attrs));
    forall i | 0 <= i < |fs| ensures fs[i].1.name == Some(fs[i].0) {
      assert fs[i] in fs;
    }
  }

  lemma {:induction false} FieldsOfDistinct(attrs: Attrs)
    requires DistinctKeys(attrs)
    ensures DistinctNames(FieldsOf(attrs))
  {
    if |attrs| > 0 {
      var init := attrs[..|attrs| - 1];
      FieldsOfDistinct(init);
      var last := attrs[|attrs| - 1];
      if last.1.FieldMember? {
        var fs := FieldsOf(init);
        forall k | 0 <= k < |fs| ensures fs[k].0 != last.0 {
          assert fs[k] in fs;
        }
      }
    }
  }

  /** What `_prepare` leaves behind, stated on values. */
  lemma PreparedSchema(attrs: Attrs)
    requires DistinctKeys(attrs)
    ensures var fs := SortByCounter(FieldsOf(Named(attrs)));
            SortedByCounter(fs) && DistinctNames(fs) && NamesMatch(fs)
  {
    var named := FieldsOf(Named(attrs));
    NamedFields(attrs);
    SortSorted(named);
    DistinctPermutation(named, SortByCounter(named));
    NamesMatchPermutation(named, SortByCounter(named));
  }
}
