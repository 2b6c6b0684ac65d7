/**
 * The record engine of fixedwidthtext/models.py: `Options` builds the
 * schema of a record type, and `LineManager` holds one record, read from a
 * line or from keyword values, cleaned field by field, and written back
 * as a line.
 */
module Models {
  import opened Wrappers
  import opened Text
  import opened Values
  import opened Fields
  import opened Schemas

  // ------------------------------------------------ what the loops compute

  /** `dictionary.get(name, None)`. */
  function Get(dictionary: map<string, Value>, name: string): Value {
    if name in dictionary then dictionary[name] else Null
  }

  /** The attributes after `_populate_fields(dictionary)`: each schema name set from the dictionary. */
  function Populated(fs: Schema, attrs: map<string, Value>, dictionary: map<string, Value>): (r: map<string, Value>)
    ensures forall i :: 0 <= i < |fs| ==> fs[i].0 in r
  {
    if |fs| == 0 then attrs
    else
      var name := fs[|fs| - 1].0;
      Populated(fs[..|fs| - 1], attrs, dictionary)[name := Get(dictionary, name)]
  }

  /** The dictionary `_parse_and_populate` fills: each name mapped to its slice of the line. */
  function Slices(fs: Schema, line: string): (r: map<string, Value>)
    ensures forall i :: 0 <= i < |fs| ==> fs[i].0 in r
  {
    if |fs| == 0 then map[]
    else
      var init := fs[..|fs| - 1];
      var last := fs[|fs| - 1];
      Slices(init, line)[last.0 := Str(PySlice(line, SumSizes(init), SumSizes(init) + last.1.size))]
  }

  /**
   * The attributes after `clean_fields`: each field in turn is cleaned from
   * its current attribute, and a value that cleans is written back.
   */
  function CleanedRecord(fs: Schema, attrs: map<string, Value>): (r: map<string, Value>)
    requires forall i :: 0 <= i < |fs| ==> fs[i].0 in attrs
    ensures r.Keys == attrs.Keys
  {
    if |fs| == 0 then attrs
    else
      var init := fs[..|fs| - 1];
      var last := fs[|fs| - 1];
      var before := CleanedRecord(init, attrs);
      match Cleaned(last.1, before[last.0])
      case Success(v) => before[last.0 := v]
      case Failure(_) => before
  }

  /** The failures `clean_fields` collects, in schema order, each under its field's name. */
  function CleanErrors(fs: Schema, attrs: map<string, Value>): (r: seq<(string, Error)>)
    requires forall i :: 0 <= i < |fs| ==> fs[i].0 in attrs
    ensures |r| <= |fs|
    ensures forall j :: 0 <= j < |r| ==> exists i :: 0 <= i < |fs| && r[j].0 == fs[i].0
  {
    if |fs| == 0 then []
    else
      var init := fs[..|fs| - 1];
      var last := fs[|fs| - 1];
      match Cleaned(last.1, CleanedRecord(init, attrs)[last.0])
      case Success(_) => CleanErrors(init, attrs)
      case Failure(e) => CleanErrors(init, attrs) + [(last.0, e)]
  }

  /** `to_string`: the renderings of the fields in order; the first field that raises decides. */
  function Rendered(fs: Schema, attrs: map<string, Value>): (r: Result<string, Error>)
    ensures r.Failure? ==> r.error.Runtime?
  {
    if |fs| == 0 then Success("")
    else
      match Rendered(fs[..|fs| - 1], attrs)
      case Failure(e) => Failure(e)
      case Success(s) =>
        match ValueToString(fs[|fs| - 1].1, Instance(attrs))
        case Failure(e) => Failure(e)
        case Success(t) => Success(s + t)
  }

  /** `get_dicts`: one entry per field in order; the first field that raises decides. */
  function Dicts(fs: Schema, attrs: map<string, Value>): (r: Result<seq<FieldInfo>, Error>)
    ensures r.Success? ==> |r.value| == |fs|
  {
    if |fs| == 0 then Success([])
    else
      match Dicts(fs[..|fs| - 1], attrs)
      case Failure(e) => Failure(e)
      case Success(ds) =>
        match ToDict(fs[|fs| - 1].1, attrs)
        case Failure(e) => Failure(e)
        case Success(d) => Success(ds + [d])
  }

  /** Once a field fails to render, the rest of the line does not matter. */
  lemma {:induction false} RenderedFailureStays(fs: Schema, attrs: map<string, Value>, i: nat)
    requires i <= |fs| && Rendered(fs[..i], attrs).Failure?
    ensures Rendered(fs, attrs) == Rendered(fs[..i], attrs)
    decreases |fs| - i
  {
    if i < |fs| {
      assert fs[..i + 1][..i] == fs[..i];
      RenderedFailureStays(fs, attrs, i + 1);
    } else {
      assert fs[..i] == fs;
    }
  }

  /** Once a field fails to describe itself, the rest of the fields do not matter. */
  lemma {:induction false} DictsFailureStays(fs: Schema, attrs: map<string, Value>, i: nat)
    requires i <= |fs| && Dicts(fs[..i], attrs).Failure?
    ensures Dicts(fs, attrs) == Dicts(fs[..i], attrs)
    decreases |fs| - i
  {
    if i < |fs| {
      assert fs[..i + 1][..i] == fs[..i];
      DictsFailureStays(fs, attrs, i + 1);
    } else {
      assert fs[..i] == fs;
    }
  }

  // --------------------------------------------------------------- Options

  /** `Options`: the schema of one record type. */
  class Options {
    var fields: Schema
    var totalSize: nat

    /** What `_prepare` establishes and nothing afterwards changes. */
    predicate Valid()
      reads this
    {
      && totalSize == SumSizes(fields)
      && SortedByCounter(fields)
      && DistinctNames(fields)
      && NamesMatch(fields)
    }

    /** `__init__` up to `_prepare`: no fields yet, total size 0. */
    constructor ()
      ensures fields == [] && totalSize == 0
    {
      fields := [];
      totalSize := 0;
    }

    /**
     * `_add_fields_names`: every field is named after its attribute; a
     * field under a reserved name is an error.
     */
    method AddFieldsNames(attrs: Attrs) returns (r: Result<Attrs, Error>)
      ensures r.Failure? <==> DeclaresReserved(attrs)
      ensures r.Failure? ==> r.error.ReservedName? && r.error.name in ReservedNames
      ensures r.Success? ==> r.value == Named(attrs)
    {
      var named: Attrs := [];
      for i := 0 to |attrs|
        invariant named == Named(attrs[..i])
        invariant forall k :: 0 <= k < i ==> !(attrs[k].1.FieldMember? && attrs[k].0 in ReservedNames)
      {
        var (name, member) := attrs[i];
        if member.FieldMember? && name in ReservedNames {
          return Failure(ReservedName(name));
        }
        assert attrs[..i + 1][..i] == attrs[..i];
        named := named + [(name, NameMember(name, member))];
      }
      assert attrs[..|attrs|] == attrs;
      return Success(named);
    }

    /** `_populate_fields`: the fields among the attributes, ordered by `creation_counter`. */
    method PopulateFields(attrs: Attrs)
      modifies this
      ensures fields == SortByCounter(FieldsOf(attrs))
      ensures totalSize == old(totalSize)
    {
      fields := SortByCounter(FieldsOf(attrs));
    }

    /** `_compute_total_size`: the sizes of the fields added up. */
    method ComputeTotalSize()
      modifies this
      ensures totalSize == SumSizes(fields)
      ensures fields == old(fields)
    {
      var total := 0;
      for i := 0 to |fields|
        invariant total == SumSizes(fields[..i])
      {
        assert fields[..i + 1][..i] == fields[..i];
        total := total + fields[i].1.size;
      }
      assert fields[..|fields|] == fields;
      totalSize := total;
    }

    /**
     * `_prepare`, run by `__init__` on the attributes of a record-type body:
     * a reserved name stops it; otherwise the schema is ordered, named and
     * sized.
     */
    method Prepare(attrs: Attrs) returns (r: Outcome<Error>)
      requires DistinctKeys(attrs)
      modifies this
      ensures r.Fail? <==> DeclaresReserved(attrs)
      ensures r.Fail? ==> fields == old(fields) && totalSize == old(totalSize)
      ensures r.Pass? ==> fields == SortByCounter(FieldsOf(Named(attrs))) && Valid()
    {
      var named := AddFieldsNames(attrs);
      if named.Failure? {
        return Fail(named.error);
      }
      PopulateFields(named.value);
      ComputeTotalSize();
      PreparedSchema(attrs);
      return Pass;
    }
  }

  // ----------------------------------------------------------- LineManager

  /** `LineManager`: one record of a record type whose schema is `meta`. */
  class LineManager {
    const meta: Options
    /** The instance attributes, one per field once populated. */
    var attrs: map<string, Value>

    /** Every field of the schema has an attribute. */
    predicate Complete()
      reads this, meta
    {
      forall i :: 0 <= i < |meta.fields| ==> meta.fields[i].0 in attrs
    }

    constructor (meta: Options)
      ensures this.meta == meta && attrs == map[]
    {
      this.meta := meta;
      attrs := map[];
    }

    /** `_populate_fields(dictionary)`: every field's attribute is set from the dictionary, or to None. */
    method PopulateFields(dictionary: map<string, Value>)
      modifies this
      ensures attrs == Populated(meta.fields, old(attrs), dictionary)
      ensures Complete()
    {
      var fields := meta.fields;
      for i := 0 to |fields|
        invariant attrs == Populated(fields[..i], old(attrs), dictionary)
        invariant forall k :: 0 <= k < i ==> fields[k].0 in attrs
      {
        assert fields[..i + 1][..i] == fields[..i];
        var name := fields[i].0;
        attrs := attrs[name := Get(dictionary, name)];
      }
      assert fields[..|fields|] == fields;
    }

    /** `_validate_string`: the line must be exactly `total_size` long. */
    method ValidateString(line: string) returns (r: Outcome<Error>)
      ensures r.Fail? <==> |line| != meta.totalSize
      ensures r.Fail? ==> r.error == WrongLineSize(meta.totalSize, |line|)
    {
      if |line| != meta.totalSize {
        return Fail(WrongLineSize(meta.totalSize, |line|));
      }
      return Pass;
    }

    /**
     * `_parse_and_populate`: a line of the right length is cut into
     * consecutive slices, one per field, and the attributes are set from
     * them; a line of another length changes nothing.
     */
    method ParseAndPopulate(line: string) returns (r: Outcome<Error>)
      modifies this
      ensures r.Fail? <==> |line| != meta.totalSize
      ensures r.Fail? ==> r.error == WrongLineSize(meta.totalSize, |line|) && attrs == old(attrs)
      ensures r.Pass? ==> attrs == Populated(meta.fields, old(attrs), Slices(meta.fields, line)) && Complete()
    {
      r := ValidateString(line);
      if r.Fail? {
        return;
      }
      var fields := meta.fields;
      var index := 0;
      var dictionary := map[];
      for i := 0 to |fields|
        invariant index == SumSizes(fields[..i])
        invariant dictionary == Slices(fields[..i], line)
      {
        assert fields[..i + 1][..i] == fields[..i];
        var ending := index + fields[i].1.size;
        dictionary := dictionary[fields[i].0 := Str(PySlice(line, index, ending))];
        index := ending;
      }
      assert fields[..|fields|] == fields;
      PopulateFields(dictionary);
    }

    /**
     * `clean_fields`: every field is cleaned, even after one has failed;
     * values that clean are written back, and the failures are raised
     * together, each under its field's name. Fields are looked up by
     * their schema key, which is `field.name` in a prepared schema
     * (`Options.Valid` includes `NamesMatch`).
     */
    method CleanFields() returns (r: Outcome<Error>)
      requires Complete()
      modifies this
      ensures attrs == CleanedRecord(meta.fields, old(attrs))
      ensures var errors := CleanErrors(meta.fields, old(attrs));
              r == if |errors| == 0 then Pass else Fail(InvalidRecord(errors))
    {
      var fields := meta.fields;
      var errors := [];
      for i := 0 to |fields|
        invariant attrs == CleanedRecord(fields[..i], old(attrs))
        invariant errors == CleanErrors(fields[..i], old(attrs))
      {
        assert fields[..i + 1][..i] == fields[..i];
        var name := fields[i].0;
        var cleaned := Clean(fields[i].1, attrs[name]);
        match cleaned {
          case Success(v) => attrs := attrs[name := v];
          case Failure(e) => errors := errors + [(name, e)];
        }
      }
      assert fields[..|fields|] == fields;
      if |errors| > 0 {
        return Fail(InvalidRecord(errors));
      }
      return Pass;
    }

    /**
     * `__init__(**kwargs)`: a `string` keyword is parsed as a line,
     * otherwise the keywords are the values; then every field is cleaned.
     */
    method Init(kwargs: map<string, Value>) returns (r: Outcome<Error>)
      modifies this
      ensures "string" in kwargs && !kwargs["string"].Str? ==> r == Fail(Runtime(TypeError)) && attrs == old(attrs)
      ensures "string" in kwargs && kwargs["string"].Str? && |kwargs["string"].s| != meta.totalSize ==>
                r == Fail(WrongLineSize(meta.totalSize, |kwargs["string"].s|)) && attrs == old(attrs)
      ensures "string" in kwargs && kwargs["string"].Str? && |kwargs["string"].s| == meta.totalSize ==>
                var populated := Populated(meta.fields, old(attrs), Slices(meta.fields, kwargs["string"].s));
                var errors := CleanErrors(meta.fields, populated);
                && attrs == CleanedRecord(meta.fields, populated)
                && r == if |errors| == 0 then Pass else Fail(InvalidRecord(errors))
      ensures "string" !in kwargs ==>
                var populated := Populated(meta.fields, old(attrs), kwargs);
                var errors := CleanErrors(meta.fields, populated);
                && attrs == CleanedRecord(meta.fields, populated)
                && r == if |errors| == 0 then Pass else Fail(InvalidRecord(errors))
    {
      if "string" in kwargs {
        var line := kwargs["string"];
        if !line.Str? {
          return Fail(Runtime(TypeError));
        }
        r := ParseAndPopulate(line.s);
        if r.Fail? {
          return;
        }
      } else {
        PopulateFields(kwargs);
      }
      r := CleanFields();
    }

    /** `to_string`: the fields rendered from the attributes, concatenated in schema order. */
    method ToString() returns (r: Result<string, Error>)
      ensures r == Rendered(meta.fields, attrs)
    {
      var fields := meta.fields;
      var line := "";
      for i := 0 to |fields|
        invariant Rendered(fields[..i], attrs) == Success(line)
      {
        assert fields[..i + 1][..i] == fields[..i];
        var text := ValueToString(fields[i].1, Instance(attrs));
        if text.Failure? {
          RenderedFailureStays(fields, attrs, i + 1);
          return Failure(text.error);
        }
        line := line + text.value;
      }
      assert fields[..|fields|] == fields;
      return Success(line);
    }

    /** `get_dicts`: the name, verbose name and value of every field, in schema order. */
    method GetDicts() returns (r: Result<seq<FieldInfo>, Error>)
      ensures r == Dicts(meta.fields, attrs)
    {
      var fields := meta.fields;
      var dicts := [];
      for i := 0 to |fields|
        invariant Dicts(fields[..i], attrs) == Success(dicts)
      {
        assert fields[..i + 1][..i] == fields[..i];
        var entry := ToDict(fields[i].1, attrs);
        if entry.Failure? {
          DictsFailureStays(fields, attrs, i + 1);
          return Failure(entry.error);
        }
        dicts := dicts + [entry.value];
      }
      assert fields[..|fields|] == fields;
      return Success(dicts);
    }
  }
}
