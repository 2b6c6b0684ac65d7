/**
 * What the record engine promises: a line is cut into consecutive slices
 * that cover it, a record is written as a line of `total_size`
 * characters, and reading that line back gives the record again.
 */
module ModelProperties {
  import opened Wrappers
  import opened Text
  import opened Values
  import opened Fields
  import opened Schemas
  import opened Models
  import opened TextProperties
  import opened FieldProperties

  // ---------------------------------------------------------------- widths

  /** The width of the first `i + 1` fields is that of the first `i` plus field `i`'s size. */
  lemma SumSizesStep(fs: Schema, i: nat)
    requires i < |fs|
    ensures SumSizes(fs[..i + 1]) == SumSizes(fs[..i]) + fs[i].1.size
  {
    assert fs[..i + 1][..i] == fs[..i];
  }

  /** The first `i` fields are no wider than the whole schema. */
  lemma {:induction false} SumSizesPrefix(fs: Schema, i: nat)
    requires i <= |fs|
    ensures SumSizes(fs[..i]) <= SumSizes(fs)
    decreases |fs| - i
  {
    if i < |fs| {
      SumSizesStep(fs, i);
      SumSizesPrefix(fs, i + 1);
    } else {
      assert fs[..i] == fs;
    }
  }

  // ------------------------------------------------------------- populating

  /** After `_populate_fields(dictionary)` every field holds its entry, or None when it has none. */
  lemma {:induction false} PopulatedField(fs: Schema, attrs: map<string, Value>, dictionary: map<string, Value>, i: nat)
    requires i < |fs|
    ensures Populated(fs, attrs, dictionary)[fs[i].0] == Get(dictionary, fs[i].0)
  {
    if i < |fs| - 1 && fs[i].0 != fs[|fs| - 1].0 {
      PopulatedField(fs[..|fs| - 1], attrs, dictionary, i);
    }
  }

  /** `_populate_fields` leaves every other attribute alone, whatever extra keys the dictionary has. */
  lemma {:induction false} PopulatedOther(fs: Schema, attrs: map<string, Value>, dictionary: map<string, Value>, k: string)
    requires forall i :: 0 <= i < |fs| ==> fs[i].0 != k
    ensures k in Populated(fs, attrs, dictionary) <==> k in attrs
    ensures k in attrs ==> Populated(fs, attrs, dictionary)[k] == attrs[k]
  {
    if |fs| > 0 {
      PopulatedOther(fs[..|fs| - 1], attrs, dictionary, k);
    }
  }

  // --------------------------------------------------------------- slicing

  /** The slices of a line concatenated in schema order. */
  function Joined(fs: Schema, line: string): string {
    if |fs| == 0 then ""
    else Joined(fs[..|fs| - 1], line) + PySlice(line, SumSizes(fs[..|fs| - 1]), SumSizes(fs))
  }

  /** The slices cover the first `total_size` characters of the line, in order, with no gap. */
  lemma {:induction false} SlicesCover(fs: Schema, line: string)
    requires SumSizes(fs) <= |line|
    ensures Joined(fs, line) == line[..SumSizes(fs)]
  {
    if |fs| > 0 {
      var init := fs[..|fs| - 1];
      var a, b := SumSizes(init), SumSizes(fs);
      SlicesCover(init, line);
      assert Joined(fs, line) == line[..a] + PySlice(line, a, b);
      assert PySlice(line, a, b) == line[a..b];
      assert line[..a] + line[a..b] == line[..b];
    }
  }

  /** A line of exactly `total_size` characters is exactly the concatenation of its slices. */
  lemma SlicesPartition(fs: Schema, line: string)
    requires |line| == SumSizes(fs)
    ensures Joined(fs, line) == line
  {
    SlicesCover(fs, line);
    assert line[..|line|] == line;
  }

  /**
   * Field `i` gets the `size_i` characters that start where the earlier
   * fields end.
   */
  lemma {:induction false} SliceOfField(fs: Schema, line: string, i: nat)
    requires DistinctNames(fs) && i < |fs| && |line| == SumSizes(fs)
    ensures fs[i].0 in Slices(fs, line)
    ensures SumSizes(fs[..i]) + fs[i].1.size <= |line|
    ensures Slices(fs, line)[fs[i].0] == Str(line[SumSizes(fs[..i])..SumSizes(fs[..i]) + fs[i].1.size])
  {
    SumSizesStep(fs, i);
    SumSizesPrefix(fs, i + 1);
    SlicesEntry(fs, line, i);
  }

  lemma SlicesEntry(fs: Schema, line: string, i: nat)
    requires DistinctNames(fs) && i < |fs|
    ensures fs[i].0 in Slices(fs, line)
    ensures Slices(fs, line)[fs[i].0] == Str(PySlice(line, SumSizes(fs[..i]), SumSizes(fs[..i]) + fs[i].1.size))
  {
    assert fs[..|fs|] == fs;
    SlicesPrefixEntry(fs, line, |fs|, i);
  }

  /** The same, for the dictionary built from the first `n` fields. */
  lemma {:induction false} SlicesPrefixEntry(fs: Schema, line: string, n: nat, i: nat)
    requires DistinctNames(fs) && i < n <= |fs|
    ensures fs[i].0 in Slices(fs[..n], line)
    ensures Slices(fs[..n], line)[fs[i].0] == Str(PySlice(line, SumSizes(fs[..i]), SumSizes(fs[..i]) + fs[i].1.size))
  {
    var pre := fs[..n];
    assert pre[..n - 1] == fs[..n - 1] && pre[n - 1] == fs[n - 1];
    if i < n - 1 {
      SlicesPrefixEntry(fs, line, n - 1, i);
      assert fs[i].0 != fs[n - 1].0;
    }
  }

  // -------------------------------------------------------------- writing

  /** Pieces of text concatenated in order. */
  function Concat(ps: seq<string>): string {
    if |ps| == 0 then "" else Concat(ps[..|ps| - 1]) + ps[|ps| - 1]
  }

  /** `to_string` writes the concatenation of what the fields render, when each of them renders. */
  lemma {:induction false} RenderedConcat(fs: Schema, attrs: map<string, Value>, ps: seq<string>)
    requires |ps| == |fs|
    requires forall k :: 0 <= k < |fs| ==> ValueToString(fs[k].1, Instance(attrs)) == Success(ps[k])
    ensures Rendered(fs, attrs) == Success(Concat(ps))
  {
    if |fs| > 0 {
      var n := |fs| - 1;
      RenderedConcat(fs[..n], attrs, ps[..n]);
      assert ValueToString(fs[n].1, Instance(attrs)) == Success(ps[n]);
    }
  }

  /** Pieces as wide as their fields add up to the width of the schema. */
  lemma {:induction false} ConcatLength(fs: Schema, ps: seq<string>)
    requires |ps| == |fs| && forall k :: 0 <= k < |fs| ==> |ps[k]| == fs[k].1.size
    ensures |Concat(ps)| == SumSizes(fs)
  {
    if |fs| > 0 {
      var n := |fs| - 1;
      ConcatLength(fs[..n], ps[..n]);
    }
  }

  /** The concatenation of the first `j` pieces starts the concatenation of all of them. */
  lemma {:induction false} ConcatPrefix(ps: seq<string>, j: nat)
    requires j <= |ps|
    ensures |Concat(ps[..j])| <= |Concat(ps)|
    ensures Concat(ps)[..|Concat(ps[..j])|] == Concat(ps[..j])
  {
    if j == |ps| {
      assert ps[..j] == ps;
    } else {
      var n := |ps| - 1;
      assert ps[..n][..j] == ps[..j];
      ConcatPrefix(ps[..n], j);
    }
  }

  /** Piece `i` sits right where the pieces before it end. */
  lemma ConcatPiece(ps: seq<string>, i: nat)
    requires i < |ps|
    ensures |Concat(ps[..i])| + |ps[i]| <= |Concat(ps)|
    ensures Concat(ps)[|Concat(ps[..i])|..|Concat(ps[..i])| + |ps[i]|] == ps[i]
  {
    assert ps[..i + 1][..i] == ps[..i];
    ConcatPrefix(ps, i + 1);
  }

  /** In a line made of pieces as wide as their fields, field `i`'s slice is piece `i`. */
  lemma SliceIsPiece(fs: Schema, ps: seq<string>, i: nat)
    requires DistinctNames(fs) && i < |fs|
    requires |ps| == |fs| && forall k :: 0 <= k < |fs| ==> |ps[k]| == fs[k].1.size
    ensures fs[i].0 in Slices(fs, Concat(ps)) && Slices(fs, Concat(ps))[fs[i].0] == Str(ps[i])
  {
    ConcatLength(fs, ps);
    ConcatLength(fs[..i], ps[..i]);
    ConcatPiece(ps, i);
    SliceOfField(fs, Concat(ps), i);
  }

  // -------------------------------------------------------------- cleaning

  /** Cleaning a field other than `k`'s leaves `k`'s attribute alone. */
  lemma {:induction false} CleanedRecordOther(fs: Schema, m: map<string, Value>, key: string)
    requires forall k :: 0 <= k < |fs| ==> fs[k].0 in m && fs[k].0 != key
    requires key in m
    ensures CleanedRecord(fs, m)[key] == m[key]
  {
    if |fs| > 0 {
      CleanedRecordOther(fs[..|fs| - 1], m, key);
    }
  }

  /**
   * With distinct names, `clean_fields` cleans each field from the value
   * it was populated with, and writes back exactly the values that clean.
   */
  lemma {:induction false} CleanedRecordAt(fs: Schema, m: map<string, Value>, i: nat)
    requires DistinctNames(fs) && i < |fs|
    requires forall k :: 0 <= k < |fs| ==> fs[k].0 in m
    ensures CleanedRecord(fs, m)[fs[i].0] ==
              match Cleaned(fs[i].1, m[fs[i].0])
              case Success(v) => v
              case Failure(_) => m[fs[i].0]
  {
    var n := |fs| - 1;
    if i < n {
      CleanedRecordAt(fs[..n], m, i);
    } else {
      CleanedRecordOther(fs[..n], m, fs[n].0);
    }
  }

  /** Every field that fails to clean is reported under its name, with its error. */
  lemma {:induction false} CleanErrorsListed(fs: Schema, m: map<string, Value>, i: nat)
    requires DistinctNames(fs) && i < |fs|
    requires forall k :: 0 <= k < |fs| ==> fs[k].0 in m
    requires Cleaned(fs[i].1, m[fs[i].0]).Failure?
    ensures (fs[i].0, Cleaned(fs[i].1, m[fs[i].0]).error) in CleanErrors(fs, m)
  {
    var n := |fs| - 1;
    var init := fs[..n];
    if i < n {
      assert init[i] == fs[i];
      CleanErrorsListed(init, m, i);
      CleanErrorsExtend(fs, init, m);
    } else {
      CleanErrorsLast(fs, m);
    }
  }

  /** The failures of the first fields are among those of the whole schema. */
  lemma CleanErrorsExtend(fs: Schema, init: Schema, m: map<string, Value>)
    requires |fs| > 0 && init == fs[..|fs| - 1]
    requires forall k :: 0 <= k < |fs| ==> fs[k].0 in m
    ensures forall p :: p in CleanErrors(init, m) ==> p in CleanErrors(fs, m)
  {
  }

  /** A last field that fails to clean is reported, with distinct names. */
  lemma CleanErrorsLast(fs: Schema, m: map<string, Value>)
    requires DistinctNames(fs) && |fs| > 0
    requires forall k :: 0 <= k < |fs| ==> fs[k].0 in m
    requires Cleaned(fs[|fs| - 1].1, m[fs[|fs| - 1].0]).Failure?
    ensures (fs[|fs| - 1].0, Cleaned(fs[|fs| - 1].1, m[fs[|fs| - 1].0]).error) in CleanErrors(fs, m)
  {
    CleanedRecordOther(fs[..|fs| - 1], m, fs[|fs| - 1].0);
  }

  /** Every reported failure is that of a field of the schema, under its name. */
  lemma {:induction false} CleanErrorsSound(fs: Schema, m: map<string, Value>, p: (string, Error))
    requires DistinctNames(fs)
    requires forall k :: 0 <= k < |fs| ==> fs[k].0 in m
    requires p in CleanErrors(fs, m)
    ensures exists k :: 0 <= k < |fs| && p.0 == fs[k].0 && Cleaned(fs[k].1, m[fs[k].0]) == Failure(p.1)
  {
    var n := |fs| - 1;
    if p in CleanErrors(fs[..n], m) {
      CleanErrorsSound(fs[..n], m, p);
      var k :| 0 <= k < n && p.0 == fs[..n][k].0 && Cleaned(fs[..n][k].1, m[fs[..n][k].0]) == Failure(p.1);
      assert fs[..n][k] == fs[k];
    } else {
      CleanedRecordOther(fs[..n], m, fs[n].0);
    }
  }

  /** `clean_fields` raises exactly when at least one field fails to clean. */
  lemma CleanErrorsEmpty(fs: Schema, m: map<string, Value>)
    requires DistinctNames(fs)
    requires forall k :: 0 <= k < |fs| ==> fs[k].0 in m
    ensures |CleanErrors(fs, m)| == 0 <==> forall k :: 0 <= k < |fs| ==> Cleaned(fs[k].1, m[fs[k].0]).Success?
  {
    if |CleanErrors(fs, m)| > 0 {
      CleanErrorsSound(fs, m, CleanErrors(fs, m)[0]);
    }
    forall k | 0 <= k < |fs| && Cleaned(fs[k].1, m[fs[k].0]).Failure?
      ensures |CleanErrors(fs, m)| > 0
    {
      CleanErrorsListed(fs, m, k);
    }
  }

  // ------------------------------------------------------------ round trip

  /** A value passes `validate` and every validator. */
  predicate Accepted(f: Field, v: Value) {
    Validate(f, v) == Pass && ValidatorsOutcome(f.validators, v) == Pass
  }

  /**
   * Every field's attribute is one its field writes in exactly its width
   * and reads back unchanged, and that passes validation.
   */
  predicate Writable(fs: Schema, attrs: map<string, Value>) {
    forall k :: 0 <= k < |fs| ==> fs[k].0 in attrs && Exact(fs[k].1, attrs[fs[k].0]) && Accepted(fs[k].1, attrs[fs[k].0])
  }

  /** `value_to_string(obj)` renders the attribute named after the field. */
  lemma FromAttribute(f: Field, attrs: map<string, Value>, name: string)
    requires f.name == Some(name) && name in attrs
    ensures ValueToString(f, Instance(attrs)) == RenderValue(f, attrs[name])
  {
  }

  /** `clean` of a raw value `to_python` reads as an accepted value gives that value. */
  lemma CleanedAccepted(f: Field, raw: Value, v: Value)
    requires ToPython(f.kind, raw) == Success(v) && Accepted(f, v)
    ensures Cleaned(f, raw) == Success(v)
  {
  }

  /** One field of a writable record: written in its width, and cleaned back to its value. */
  lemma FieldLine(f: Field, attrs: map<string, Value>, name: string)
    requires f.name == Some(name) && name in attrs && Exact(f, attrs[name]) && Accepted(f, attrs[name])
    ensures ValueToString(f, Instance(attrs)).Success?
    ensures |ValueToString(f, Instance(attrs)).value| == f.size
    ensures Cleaned(f, Str(ValueToString(f, Instance(attrs)).value)) == Success(attrs[name])
  {
    FromAttribute(f, attrs, name);
    FieldRoundTrip(f, attrs[name]);
    CleanedAccepted(f, Str(RenderValue(f, attrs[name]).value), attrs[name]);
  }

  /** `p` is what field `f` writes for the record, in its width, and it cleans back to the attribute. */
  predicate Piece(f: Field, attrs: map<string, Value>, name: string, p: string)
    requires name in attrs
  {
    && ValueToString(f, Instance(attrs)) == Success(p)
    && |p| == f.size
    && Cleaned(f, Str(p)) == Success(attrs[name])
  }

  /** What each field of a writable record writes. */
  lemma WrittenPieces(fs: Schema, attrs: map<string, Value>) returns (ps: seq<string>)
    requires NamesMatch(fs) && Writable(fs, attrs)
    ensures |ps| == |fs|
    ensures forall k :: 0 <= k < |fs| ==> Piece(fs[k].1, attrs, fs[k].0, ps[k])
  {
    forall k | 0 <= k < |fs|
      ensures ValueToString(fs[k].1, Instance(attrs)).Success?
      ensures Piece(fs[k].1, attrs, fs[k].0, ValueToString(fs[k].1, Instance(attrs)).value)
    {
      FieldLine(fs[k].1, attrs, fs[k].0);
    }
    ps := seq(|fs|, k requires 0 <= k < |fs| && ValueToString(fs[k].1, Instance(attrs)).Success? =>
                      ValueToString(fs[k].1, Instance(attrs)).value);
  }

  /** When every field cleans, nothing is reported and every field holds its cleaned value. */
  lemma CleanedAll(fs: Schema, m: map<string, Value>, vals: seq<Value>)
    requires DistinctNames(fs) && |vals| == |fs|
    requires forall k :: 0 <= k < |fs| ==> fs[k].0 in m && Cleaned(fs[k].1, m[fs[k].0]) == Success(vals[k])
    ensures |CleanErrors(fs, m)| == 0
    ensures forall k :: 0 <= k < |fs| ==> CleanedRecord(fs, m)[fs[k].0] == vals[k]
  {
    CleanErrorsEmpty(fs, m);
    forall k | 0 <= k < |fs| ensures CleanedRecord(fs, m)[fs[k].0] == vals[k] {
      CleanedRecordAt(fs, m, k);
    }
  }

  /**
   * A writable record written by `to_string` is a line of `total_size`
   * characters, and reading that line back (populating from its slices,
   * then cleaning) raises nothing and gives every field its value again.
   */
  lemma LineRoundTrip(fs: Schema, attrs: map<string, Value>, base: map<string, Value>)
    requires DistinctNames(fs) && NamesMatch(fs) && Writable(fs, attrs)
    ensures Rendered(fs, attrs).Success? && |Rendered(fs, attrs).value| == SumSizes(fs)
    ensures var m := Populated(fs, base, Slices(fs, Rendered(fs, attrs).value));
            && |CleanErrors(fs, m)| == 0
            && forall k :: 0 <= k < |fs| ==> CleanedRecord(fs, m)[fs[k].0] == attrs[fs[k].0]
  {
    var ps := WrittenPieces(fs, attrs);
    assert forall k :: 0 <= k < |fs| ==> Piece(fs[k].1, attrs, fs[k].0, ps[k]);
    RenderedConcat(fs, attrs, ps);
    ConcatLength(fs, ps);
    var line := Concat(ps);
    var m := Populated(fs, base, Slices(fs, line));
    forall k | 0 <= k < |fs| ensures m[fs[k].0] == Str(ps[k]) {
      SliceIsPiece(fs, ps, k);
      PopulatedField(fs, base, Slices(fs, line), k);
    }
    var vals := seq(|fs|, k requires 0 <= k < |fs| => attrs[fs[k].0]);
    CleanedAll(fs, m, vals);
  }

  /** Field `k`'s slice of a line, as `_parse_and_populate` cuts it. */
  function FieldSlice(fs: Schema, line: string, k: nat): string
    requires k < |fs|
  {
    PySlice(line, SumSizes(fs[..k]), SumSizes(fs[..k]) + fs[k].1.size)
  }

  /** A slice the field cleans, and whose cleaned value it writes back as that same slice. */
  predicate Canonical(f: Field, s: string) {
    Cleaned(f, Str(s)).Success? && RenderValue(f, Cleaned(f, Str(s)).value) == Success(s)
  }

  /** The slices of the fields, concatenated in order, are what `Joined` describes. */
  lemma {:induction false} JoinedConcat(fs: Schema, line: string, ps: seq<string>)
    requires |ps| == |fs| && forall k :: 0 <= k < |fs| ==> ps[k] == FieldSlice(fs, line, k)
    ensures Concat(ps) == Joined(fs, line)
  {
    if |fs| > 0 {
      var n := |fs| - 1;
      var init, qs := fs[..n], ps[..n];
      forall k | 0 <= k < n ensures qs[k] == FieldSlice(init, line, k) {
        assert init[..k] == fs[..k];
      }
      JoinedConcat(init, line, qs);
      assert ps[n] == PySlice(line, SumSizes(init), SumSizes(fs));
    }
  }

  /** Every field's entry in `m` is the text of its slice of the line. */
  predicate HoldsSlices(fs: Schema, line: string, m: map<string, Value>) {
    forall k :: 0 <= k < |fs| ==> fs[k].0 in m && m[fs[k].0] == Str(FieldSlice(fs, line, k))
  }

  /** `_parse_and_populate(line)` gives every field its slice of the line. */
  lemma PopulatedSlices(fs: Schema, line: string, base: map<string, Value>)
    requires DistinctNames(fs)
    ensures HoldsSlices(fs, line, Populated(fs, base, Slices(fs, line)))
  {
    forall k | 0 <= k < |fs|
      ensures Populated(fs, base, Slices(fs, line))[fs[k].0] == Str(FieldSlice(fs, line, k))
    {
      SlicesEntry(fs, line, k);
      PopulatedField(fs, base, Slices(fs, line), k);
    }
  }

  /** Slices that are canonical clean without error, to values that write them back. */
  lemma CleanedSlices(fs: Schema, line: string, m: map<string, Value>) returns (vals: seq<Value>)
    requires DistinctNames(fs) && HoldsSlices(fs, line, m)
    requires forall k :: 0 <= k < |fs| ==> Canonical(fs[k].1, FieldSlice(fs, line, k))
    ensures |CleanErrors(fs, m)| == 0 && |vals| == |fs|
    ensures forall k :: 0 <= k < |fs| ==>
              && CleanedRecord(fs, m)[fs[k].0] == vals[k]
              && RenderValue(fs[k].1, vals[k]) == Success(FieldSlice(fs, line, k))
  {
    vals := seq(|fs|, k requires 0 <= k < |fs| && Canonical(fs[k].1, FieldSlice(fs, line, k)) =>
                  Cleaned(fs[k].1, Str(FieldSlice(fs, line, k))).value);
    CleanedAll(fs, m, vals);
  }

  /** A record whose every field writes its slice of a line is written as that line. */
  lemma RenderedSlices(fs: Schema, line: string, attrs: map<string, Value>, vals: seq<Value>)
    requires NamesMatch(fs) && |line| == SumSizes(fs) && |vals| == |fs|
    requires forall k :: 0 <= k < |fs| ==>
               && fs[k].0 in attrs && attrs[fs[k].0] == vals[k]
               && RenderValue(fs[k].1, vals[k]) == Success(FieldSlice(fs, line, k))
    ensures Rendered(fs, attrs) == Success(line)
  {
    var ps := seq(|fs|, k requires 0 <= k < |fs| => FieldSlice(fs, line, k));
    forall k | 0 <= k < |fs| ensures ValueToString(fs[k].1, Instance(attrs)) == Success(ps[k]) {
      FromAttribute(fs[k].1, attrs, fs[k].0);
    }
    RenderedConcat(fs, attrs, ps);
    JoinedConcat(fs, line, ps);
    SlicesPartition(fs, line);
  }

  /**
   * A line of `total_size` characters whose every slice is canonical for
   * its field is read without error, and `to_string` of the record read
   * from it gives the line back.
   */
  lemma ReadWriteLine(fs: Schema, line: string, base: map<string, Value>)
    requires DistinctNames(fs) && NamesMatch(fs) && |line| == SumSizes(fs)
    requires forall k :: 0 <= k < |fs| ==> Canonical(fs[k].1, FieldSlice(fs, line, k))
    ensures var m := Populated(fs, base, Slices(fs, line));
            && |CleanErrors(fs, m)| == 0
            && Rendered(fs, CleanedRecord(fs, m)) == Success(line)
  {
    var m := Populated(fs, base, Slices(fs, line));
    PopulatedSlices(fs, line, base);
    var vals := CleanedSlices(fs, line, m);
    RenderedSlices(fs, line, CleanedRecord(fs, m), vals);
  }

  // -------------------------------------------------------------- get_dicts

  /**
   * `get_dicts` succeeds exactly when every field's entry can be built, and
   * then lists them in schema order.
   */
  lemma {:induction false} DictsEntries(fs: Schema, attrs: map<string, Value>)
    ensures Dicts(fs, attrs).Success? <==> forall k :: 0 <= k < |fs| ==> ToDict(fs[k].1, attrs).Success?
    ensures Dicts(fs, attrs).Success? ==>
              && |Dicts(fs, attrs).value| == |fs|
              && forall k :: 0 <= k < |fs| ==> ToDict(fs[k].1, attrs) == Success(Dicts(fs, attrs).value[k])
  {
    if |fs| > 0 {
      var n := |fs| - 1;
      var init := fs[..n];
      DictsEntries(init, attrs);
      assert forall k :: 0 <= k < n ==> init[k] == fs[k];
      match Dicts(init, attrs)
      case Failure(_) =>
        var k :| 0 <= k < n && ToDict(init[k].1, attrs).Failure?;
        assert ToDict(fs[k].1, attrs).Failure?;
      case Success(ds) =>
        if ToDict(fs[n].1, attrs).Success? {
          var r := ds + [ToDict(fs[n].1, attrs).value];
          assert Dicts(fs, attrs) == Success(r);
          forall k | 0 <= k < |fs| ensures ToDict(fs[k].1, attrs) == Success(r[k]) {
            if k < n {
              assert r[k] == ds[k];
            }
          }
        }
    }
  }

  /** Each entry `get_dicts` lists carries its field's name and verbose name. */
  lemma DictsNamed(fs: Schema, attrs: map<string, Value>)
    requires NamesMatch(fs) && Dicts(fs, attrs).Success?
    ensures |Dicts(fs, attrs).value| == |fs|
    ensures forall k :: 0 <= k < |fs| ==>
              && Dicts(fs, attrs).value[k].name == fs[k].0
              && Dicts(fs, attrs).value[k].verboseName == VerboseName(fs[k].1).value
  {
    DictsEntries(fs, attrs);
  }

  /** `get_dicts` lists the entries of the fields, when each of them can be built. */
  lemma DictsOf(fs: Schema, attrs: map<string, Value>, ds: seq<FieldInfo>)
    requires |ds| == |fs| && forall k :: 0 <= k < |fs| ==> ToDict(fs[k].1, attrs) == Success(ds[k])
    ensures Dicts(fs, attrs) == Success(ds)
  {
    DictsEntries(fs, attrs);
    assert Dicts(fs, attrs).value == ds;
  }

  // ----------------------------------------------------- records, end to end

  /**
   * `LineModel(string=obj.to_string())` for a record whose every attribute
   * is writable: it raises nothing, and the new record holds the same value
   * under every field.
   */
  method RecordRoundTrip(rec: LineManager) returns (copy: LineManager, r: Outcome<Error>)
    requires rec.meta.Valid() && Writable(rec.meta.fields, rec.attrs)
    ensures r == Pass
    ensures copy.meta == rec.meta
    ensures forall k :: 0 <= k < |rec.meta.fields| ==>
              var name := rec.meta.fields[k].0;
              name in copy.attrs && copy.attrs[name] == rec.attrs[name]
  {
    var line := rec.ToString();
    LineRoundTrip(rec.meta.fields, rec.attrs, map[]);
    copy := new LineManager(rec.meta);
    r := copy.Init(map["string" := Str(line.value)]);
  }

  // ------------------------------------------------------- keyword records

  /** `to_python` keeps a value its field writes exactly. */
  lemma ExactKept(f: Field, v: Value)
    requires Exact(f, v)
    ensures ToPython(f.kind, v) == Success(v)
  {
    if f.kind.StringKind? {
      StripUnpadded(v.s);
    }
  }

  /**
   * `LineModel(**attrs)` for writable attributes: populating from the
   * keywords and cleaning raises nothing and keeps every value.
   */
  lemma KeywordsKept(fs: Schema, attrs: map<string, Value>, base: map<string, Value>)
    requires DistinctNames(fs) && Writable(fs, attrs)
    ensures var m := Populated(fs, base, attrs);
            && |CleanErrors(fs, m)| == 0
            && forall k :: 0 <= k < |fs| ==> CleanedRecord(fs, m)[fs[k].0] == attrs[fs[k].0]
  {
    var m := Populated(fs, base, attrs);
    forall k | 0 <= k < |fs| ensures fs[k].0 in m && Cleaned(fs[k].1, m[fs[k].0]) == Success(attrs[fs[k].0]) {
      PopulatedField(fs, base, attrs, k);
      ExactKept(fs[k].1, attrs[fs[k].0]);
      CleanedAccepted(fs[k].1, attrs[fs[k].0], attrs[fs[k].0]);
    }
    var vals := seq(|fs|, k requires 0 <= k < |fs| => attrs[fs[k].0]);
    CleanedAll(fs, m, vals);
  }

  /** Two records that agree on every field's attribute. */
  predicate Agree(fs: Schema, a: map<string, Value>, b: map<string, Value>) {
    forall k :: 0 <= k < |fs| ==> fs[k].0 in a && fs[k].0 in b && a[fs[k].0] == b[fs[k].0]
  }

  /** `to_string` reads nothing but the fields' attributes. */
  lemma {:induction false} RenderedAgree(fs: Schema, a: map<string, Value>, b: map<string, Value>)
    requires NamesMatch(fs) && Agree(fs, a, b)
    ensures Rendered(fs, a) == Rendered(fs, b)
  {
    if |fs| > 0 {
      var n := |fs| - 1;
      RenderedAgree(fs[..n], a, b);
      FromAttribute(fs[n].1, a, fs[n].0);
      FromAttribute(fs[n].1, b, fs[n].0);
    }
  }

  /** `get_dicts` reads nothing but the fields' attributes. */
  lemma {:induction false} DictsAgree(fs: Schema, a: map<string, Value>, b: map<string, Value>)
    requires NamesMatch(fs) && Agree(fs, a, b)
    ensures Dicts(fs, a) == Dicts(fs, b)
  {
    if |fs| > 0 {
      var n := |fs| - 1;
      DictsAgree(fs[..n], a, b);
      assert ToDict(fs[n].1, a) == ToDict(fs[n].1, b);
    }
  }
}
