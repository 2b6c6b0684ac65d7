/**
 * The record type the library's own test cases declare — first name and
 * last name ten characters each, then a three-digit age — with the
 * records they read and write.
 */
module ModelExamples {
  import opened Wrappers
  import opened Text
  import opened Values
  import opened Fields
  import opened Schemas
  import opened Models
  import opened TextProperties
  import opened FieldProperties
  import opened ModelProperties
  import opened FieldExamples

  /** A field as declared in a class body: not yet named. */
  function Unnamed(kind: Kind, size: nat, counter: nat): (f: Field)
    ensures f.name.None? && f.kind == kind && f.size == size && f.counter == counter
  {
    Field(kind, None, None, size, [], Literal(Null), [], counter)
  }

  /**
   * The class body, in the arbitrary order a dict may list it, with one
   * attribute that is not a field.
   */
  function Body(): (attrs: Attrs)
    ensures DistinctKeys(attrs) && !DeclaresReserved(attrs)
  {
    [ ("age", FieldMember(Unnamed(IntegerKind, 3, 2))),
      ("first_name", FieldMember(Unnamed(StringKind, 10, 0))),
      ("__module__", Other),
      ("last_name", FieldMember(Unnamed(StringKind, 10, 1))) ]
  }

  /** The schema the body declares: in declaration order, each field named. */
  function ExampleSchema(): Schema {
    [ ("first_name", Plain(StringKind, "first_name", 10, 0)),
      ("last_name", Plain(StringKind, "last_name", 10, 1)),
      ("age", Plain(IntegerKind, "age", 3, 2)) ]
  }

  /** The fields come out as first name, last name, age. */
  lemma SchemaExample()
    ensures SortByCounter(FieldsOf(Named(Body()))) == ExampleSchema()
  {
    var fs := ExampleSchema();
    NamedBody();
    FieldsOfNamed();
    SortExample(fs[2], fs[0], fs[1]);
  }

  /** The record is 23 characters wide. */
  lemma TotalSizeExample()
    ensures SumSizes(ExampleSchema()) == 23
  {
    var fs := ExampleSchema();
    assert fs[..2][..1] == fs[..1] && fs[..1][..0] == [];
    assert SumSizes(fs[..1]) == 10;
    assert SumSizes(fs[..2]) == 20;
  }

  lemma NamedBody()
    ensures Named(Body()) ==
              [ ("age", FieldMember(Plain(IntegerKind, "age", 3, 2))),
                ("first_name", FieldMember(Plain(StringKind, "first_name", 10, 0))),
                ("__module__", Other),
                ("last_name", FieldMember(Plain(StringKind, "last_name", 10, 1))) ]
  {
  }

  lemma FieldsOfNamed()
    ensures FieldsOf(Named(Body())) == [ExampleSchema()[2], ExampleSchema()[0], ExampleSchema()[1]]
  {
    NamedBody();
    var n, fs := Named(Body()), ExampleSchema();
    assert n[..1][..0] == [] && n[..2][..1] == n[..1] && n[..3][..2] == n[..2] && n[..4] == n;
    assert FieldsOf(n[..1]) == [fs[2]];
    assert FieldsOf(n[..2]) == [fs[2], fs[0]];
    assert FieldsOf(n[..3]) == [fs[2], fs[0]];
  }

  /** Three fields listed out of order are put in counter order. */
  lemma SortExample(a: (string, Field), b: (string, Field), c: (string, Field))
    requires b.1.counter < c.1.counter < a.1.counter
    ensures SortByCounter([a, b, c]) == [b, c, a]
  {
    var s := [a, b, c];
    assert s[1..] == [b, c] && s[1..][1..] == [c] && s[1..][1..][1..] == [];
    assert SortByCounter([c]) == [c];
    assert InsertByCounter(b, [c]) == [b, c];
    assert [b, c][1..] == [c];
    assert InsertByCounter(a, [c]) == [c, a];
    assert InsertByCounter(a, [b, c]) == [b, c, a];
  }

  // ------------------------------------------------------------- records

  /** A record with the given attributes. */
  function Person(first: string, last: string, age: int): map<string, Value> {
    map["first_name" := Str(first), "last_name" := Str(last), "age" := Int(age)]
  }

  lemma Digits024()
    ensures AllDigits("024") && DigitsValue("024") == 24
  {
    var s1 := ['0'];
    var s2 := s1 + ['2'];
    DigitsAppend([], '0');
    DigitsAppend(s1, '2');
    DigitsAppend(s2, '4');
    assert s2 + ['4'] == "024";
  }

  lemma Digits014()
    ensures AllDigits("014") && DigitsValue("014") == 14
  {
    var s1 := ['0'];
    var s2 := s1 + ['1'];
    DigitsAppend([], '0');
    DigitsAppend(s1, '1');
    DigitsAppend(s2, '4');
    assert s2 + ['4'] == "014";
  }

  /** A name field renders a short name followed by blanks. */
  lemma NameRendered(name: string, attrs: map<string, Value>, v: string, k: nat, text: string)
    requires name in attrs && attrs[name] == Str(v) && Unpadded(v) && |v| + k == 10 && text == v + Repeat(' ', k)
    ensures ValueToString(Plain(StringKind, name, 10, 0), Instance(attrs)) == Success(text)
    ensures ValueToString(Plain(StringKind, name, 10, 1), Instance(attrs)) == Success(text)
  {
    StringReRender(v, k);
  }

  /** The age field renders a two-digit age with one leading zero. */
  lemma AgeRendered(attrs: map<string, Value>, age: int, text: string)
    requires "age" in attrs && attrs["age"] == Int(age)
    requires AllDigits(text) && |text| == 3 && DigitsValue(text) == age
    ensures ValueToString(Plain(IntegerKind, "age", 3, 2), Instance(attrs)) == Success(text)
    ensures ToPython(IntegerKind, Str(text)) == Success(Int(age))
  {
    IntegerCanonical(text);
  }

  lemma ConcatThree(a: string, b: string, c: string)
    ensures Concat([a, b, c]) == a + b + c
  {
    var ps := [a, b, c];
    assert ps[..2][..1][..0] == [] && ps[..2][..1] == [a] && ps[..2] == [a, b];
    assert Concat([a]) == a;
  }

  /** What each field of Joao Pereira, 24, renders. */
  lemma JoaoPieces(fs: Schema, attrs: map<string, Value>, ps: seq<string>)
    requires fs == ExampleSchema() && attrs == Person("Joao", "Pereira", 24)
    requires ps == ["Joao      ", "Pereira   ", "024"]
    ensures |ps| == |fs| && forall k :: 0 <= k < |fs| ==> ValueToString(fs[k].1, Instance(attrs)) == Success(ps[k])
  {
    forall k | 0 <= k < |fs| ensures ValueToString(fs[k].1, Instance(attrs)) == Success(ps[k]) {
      if k == 0 {
        NameRendered("first_name", attrs, "Joao", 6, ps[0]);
      } else if k == 1 {
        NameRendered("last_name", attrs, "Pereira", 3, ps[1]);
      } else {
        Digits024();
        AgeRendered(attrs, 24, ps[2]);
      }
    }
  }

  /** `to_string` of Joao Pereira, 24, is `Joao      Pereira   024`. */
  lemma WriteExample(fs: Schema, attrs: map<string, Value>)
    requires fs == ExampleSchema() && attrs == Person("Joao", "Pereira", 24)
    ensures Rendered(fs, attrs) == Success("Joao      " + "Pereira   " + "024")
  {
    var ps := ["Joao      ", "Pereira   ", "024"];
    JoaoPieces(fs, attrs, ps);
    RenderedConcat(fs, attrs, ps);
    ConcatThree(ps[0], ps[1], ps[2]);
  }

  /** What each field of Pedro Almeida, 14, renders. */
  lemma PedroPieces(fs: Schema, attrs: map<string, Value>, ps: seq<string>)
    requires fs == ExampleSchema() && attrs == Person("Pedro", "Almeida", 14)
    requires ps == ["Pedro     ", "Almeida   ", "014"]
    ensures |ps| == |fs| && forall k :: 0 <= k < |fs| ==> ValueToString(fs[k].1, Instance(attrs)) == Success(ps[k])
  {
    forall k | 0 <= k < |fs| ensures ValueToString(fs[k].1, Instance(attrs)) == Success(ps[k]) {
      if k == 0 {
        NameRendered("first_name", attrs, "Pedro", 5, ps[0]);
      } else if k == 1 {
        NameRendered("last_name", attrs, "Almeida", 3, ps[1]);
      } else {
        Digits014();
        AgeRendered(attrs, 14, ps[2]);
      }
    }
  }

  /** Pedro Almeida, 14, is written as the line the test case reads. */
  lemma PedroWritten(fs: Schema, attrs: map<string, Value>)
    requires fs == ExampleSchema() && attrs == Person("Pedro", "Almeida", 14)
    ensures Rendered(fs, attrs) == Success("Pedro     " + "Almeida   " + "014")
  {
    var ps := ["Pedro     ", "Almeida   ", "014"];
    PedroPieces(fs, attrs, ps);
    RenderedConcat(fs, attrs, ps);
    ConcatThree(ps[0], ps[1], ps[2]);
  }

  /** A person whose names fit without blanks around them and whose age fits is writable. */
  lemma PersonWritable(fs: Schema, first: string, last: string, age: int)
    requires fs == ExampleSchema()
    requires Unpadded(first) && |first| <= 10 && Unpadded(last) && |last| <= 10 && -100 < age < 1000
    ensures DistinctNames(fs) && NamesMatch(fs) && Writable(fs, Person(first, last, age))
  {
    var attrs := Person(first, last, age);
    assert Pow10(2) == 100 && Pow10(3) == 1000;
    forall k | 0 <= k < |fs| ensures fs[k].0 in attrs && Exact(fs[k].1, attrs[fs[k].0]) && Accepted(fs[k].1, attrs[fs[k].0]) {
      if k == 0 {
        assert attrs[fs[k].0] == Str(first);
      } else if k == 1 {
        assert attrs[fs[k].0] == Str(last);
      } else {
        assert attrs[fs[k].0] == Int(age);
      }
    }
  }

  /** A record that agrees with a person on every field holds that person's names and age. */
  lemma HoldsPerson(fs: Schema, m: map<string, Value>, first: string, last: string, age: int)
    requires fs == ExampleSchema() && Agree(fs, m, Person(first, last, age))
    ensures "first_name" in m && m["first_name"] == Str(first)
    ensures "last_name" in m && m["last_name"] == Str(last)
    ensures "age" in m && m["age"] == Int(age)
  {
    assert fs[0].0 == "first_name" && fs[1].0 == "last_name" && fs[2].0 == "age";
  }

  /** Reading the line back gives Pedro Almeida, 14, and raises nothing. */
  lemma PedroRead(fs: Schema, line: string, base: map<string, Value>)
    requires fs == ExampleSchema() && line == "Pedro     " + "Almeida   " + "014"
    ensures |line| == SumSizes(fs)
    ensures var m := Populated(fs, base, Slices(fs, line));
            && |CleanErrors(fs, m)| == 0
            && Agree(fs, CleanedRecord(fs, m), Person("Pedro", "Almeida", 14))
  {
    var person := Person("Pedro", "Almeida", 14);
    PedroWritten(fs, person);
    PersonWritable(fs, "Pedro", "Almeida", 14);
    LineRoundTrip(fs, person, base);
  }

  /** Writing the record read from Pedro's line gives that line again. */
  lemma PedroRewritten(fs: Schema, line: string, base: map<string, Value>)
    requires fs == ExampleSchema() && line == "Pedro     " + "Almeida   " + "014"
    ensures Rendered(fs, CleanedRecord(fs, Populated(fs, base, Slices(fs, line)))) == Success(line)
  {
    var person := Person("Pedro", "Almeida", 14);
    PedroRead(fs, line, base);
    PersonWritable(fs, "Pedro", "Almeida", 14);
    RenderedAgree(fs, CleanedRecord(fs, Populated(fs, base, Slices(fs, line))), person);
    PedroWritten(fs, person);
  }

  /** The record type of the test cases, prepared from its body. */
  method PrepareExample() returns (meta: Options)
    ensures meta.Valid() && meta.fields == ExampleSchema() && meta.totalSize == 23
  {
    meta := new Options();
    var prepared := meta.Prepare(Body());
    SchemaExample();
    TotalSizeExample();
  }

  /** `ExampleLineManager(string='Pedro     Almeida   014')` reads Pedro Almeida, 14. */
  method ReadExample(meta: Options) returns (rec: LineManager, r: Outcome<Error>)
    requires meta.Valid() && meta.fields == ExampleSchema()
    ensures r == Pass && rec.meta == meta
    ensures "first_name" in rec.attrs && rec.attrs["first_name"] == Str("Pedro")
    ensures "last_name" in rec.attrs && rec.attrs["last_name"] == Str("Almeida")
    ensures "age" in rec.attrs && rec.attrs["age"] == Int(14)
  {
    var line := "Pedro     " + "Almeida   " + "014";
    PedroRead(meta.fields, line, map[]);
    rec := new LineManager(meta);
    r := rec.Init(map["string" := Str(line)]);
    HoldsPerson(meta.fields, rec.attrs, "Pedro", "Almeida", 14);
  }

  /** `get_dicts` of Joao Pereira, 24: names, verbose names and values in schema order. */
  lemma DictsExample(fs: Schema, attrs: map<string, Value>)
    requires fs == ExampleSchema() && attrs == Person("Joao", "Pereira", 24)
    ensures Dicts(fs, attrs) == Success([
              FieldInfo("first_name", "first name", Str("Joao")),
              FieldInfo("last_name", "last name", Str("Pereira")),
              FieldInfo("age", "age", Int(24))])
  {
    var ds := [FieldInfo("first_name", "first name", Str("Joao")),
               FieldInfo("last_name", "last name", Str("Pereira")),
               FieldInfo("age", "age", Int(24))];
    StripUnpadded("Joao");
    StripUnpadded("Pereira");
    forall k | 0 <= k < |fs| ensures ToDict(fs[k].1, attrs) == Success(ds[k]) {
      EntryOf(fs[k].1, attrs, ds[k]);
    }
    DictsOf(fs, attrs, ds);
  }

  /** The entry of a field without a verbose name whose attribute `to_python` keeps. */
  lemma EntryOf(f: Field, attrs: map<string, Value>, d: FieldInfo)
    requires f.name == Some(d.name) && f.verboseName.None? && d.name in attrs && attrs[d.name] == d.value
    requires ToPython(f.kind, d.value) == Success(d.value)
    requires |d.verboseName| == |d.name|
    requires forall i :: 0 <= i < |d.name| ==> d.verboseName[i] == if d.name[i] == '_' then ' ' else d.name[i]
    ensures ToDict(f, attrs) == Success(d)
  {
    assert VerboseName(f).value == d.verboseName;
  }

  /** Cleaning Joao Pereira, 24, given as keywords, raises nothing and keeps every value. */
  lemma JoaoKept(fs: Schema, base: map<string, Value>)
    requires fs == ExampleSchema()
    ensures var m := Populated(fs, base, Person("Joao", "Pereira", 24));
            && |CleanErrors(fs, m)| == 0
            && Agree(fs, CleanedRecord(fs, m), Person("Joao", "Pereira", 24))
  {
    PersonWritable(fs, "Joao", "Pereira", 24);
    KeywordsKept(fs, Person("Joao", "Pereira", 24), base);
  }

  /**
   * `ExampleLineManager(first_name='Joao', last_name='Pereira', age=24)`
   * keeps the values, writes `Joao      Pereira   024`, and lists its
   * fields as the test case expects.
   */
  method KeywordExample(meta: Options) returns (rec: LineManager, r: Outcome<Error>, line: Result<string, Error>,
                                                dicts: Result<seq<FieldInfo>, Error>)
    requires meta.Valid() && meta.fields == ExampleSchema()
    ensures r == Pass && rec.meta == meta
    ensures "first_name" in rec.attrs && rec.attrs["first_name"] == Str("Joao")
    ensures "last_name" in rec.attrs && rec.attrs["last_name"] == Str("Pereira")
    ensures "age" in rec.attrs && rec.attrs["age"] == Int(24)
    ensures line == Success("Joao      " + "Pereira   " + "024")
    ensures dicts == Success([
              FieldInfo("first_name", "first name", Str("Joao")),
              FieldInfo("last_name", "last name", Str("Pereira")),
              FieldInfo("age", "age", Int(24))])
  {
    var fs, person := meta.fields, Person("Joao", "Pereira", 24);
    assert "string" !in person;
    rec := new LineManager(meta);
    JoaoKept(fs, rec.attrs);
    ghost var populated := Populated(fs, rec.attrs, person);
    r := rec.Init(person);
    assert rec.attrs == CleanedRecord(fs, populated) && |CleanErrors(fs, populated)| == 0;
    HoldsPerson(fs, rec.attrs, "Joao", "Pereira", 24);
    JoaoOutputs(fs, rec.attrs, person);
    line := rec.ToString();
    dicts := rec.GetDicts();
  }

  /** Any attributes agreeing with Joao's are written and listed as Joao's are. */
  lemma JoaoOutputs(fs: Schema, attrs: map<string, Value>, person: map<string, Value>)
    requires fs == ExampleSchema() && person == Person("Joao", "Pereira", 24) && Agree(fs, attrs, person)
    ensures Rendered(fs, attrs) == Success("Joao      " + "Pereira   " + "024")
    ensures Dicts(fs, attrs) == Success([
              FieldInfo("first_name", "first name", Str("Joao")),
              FieldInfo("last_name", "last name", Str("Pereira")),
              FieldInfo("age", "age", Int(24))])
  {
    RenderedAgree(fs, attrs, person);
    WriteExample(fs, person);
    DictsAgree(fs, attrs, person);
    DictsExample(fs, person);
  }
}
