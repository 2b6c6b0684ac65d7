/**
 * The field types of fixedwidthtext/fields.py. A field is a cell of fixed
 * width: `to_python` turns a raw slice (or an already typed value) into its
 * value, `value_to_string` renders a value back as text, and `clean` runs
 * the conversion and the validation a record applies to every cell.
 */
module Fields {
  import opened Wrappers
  import opened Text
  import opened Values
  import opened TextProperties

  /** The concrete field classes. */
  datatype Kind =
    | StringKind
    | IntegerKind
    | DateKind
    | DecimalKind(places: Option<nat>)

  /**
   * What one validator does with a value: return, raise ValidationError
   * with messages, or raise any other exception, which nothing in the
   * field catches.
   */
  datatype Check = Accept | Reject(messages: seq<string>) | Raise(kind: RuntimeError)

  /**
   * A field's `default`: a plain value (`Literal(Null)` is Python's None,
   * meaning no default) or a zero-argument callable. The callable may read
   * the clock or any other outside state; that state is its argument here.
   */
  datatype Default = Literal(value: Value) | Callable(produce: nat -> Value)

  /** The keyword arguments of a field constructor. */
  datatype FieldArgs = FieldArgs(
    kind: Kind,
    name: Option<string>,
    verboseName: Option<string>,
    size: Option<nat>,
    choices: seq<Value>,
    default: Default,
    validators: seq<Value -> Check>)

  /** A constructed field; `counter` is its `creation_counter`. An empty `choices` is "no choices". */
  datatype Field = Field(
    kind: Kind,
    name: Option<string>,
    verboseName: Option<string>,
    size: nat,
    choices: seq<Value>,
    default: Default,
    validators: seq<Value -> Check>,
    counter: nat)

  /** The class-level `Field.creation_counter` and the constructors that advance it. */
  class FieldFactory {
    var counter: nat

    constructor ()
      ensures counter == 0
    {
      counter := 0;
    }

    /**
     * `Field.__init__`: the field takes the current counter value, the
     * counter advances, and only then is a missing size rejected, so a
     * failed construction still uses up a counter value.
     */
    method NewField(args: FieldArgs) returns (r: Result<Field, Error>)
      modifies this
      ensures counter == old(counter) + 1
      ensures r.Failure? <==> args.size.None?
      ensures r.Failure? ==> r.error == MissingSize
      ensures r.Success? ==> r.value == Field(args.kind, args.name, args.verboseName, args.size.value,
                                               args.choices, args.default, args.validators, old(counter))
    {
      var stamp := counter;
      counter := counter + 1;
      if args.size.None? {
        return Failure(MissingSize);
      }
      r := Success(Field(args.kind, args.name, args.verboseName, args.size.value,
                         args.choices, args.default, args.validators, stamp));
    }

    /**
     * A record-type body declaring its fields one after the other: each
     * gets a counter above every earlier one; the first field without a
     * size aborts the declaration, having used up one counter value more
     * than the fields before it.
     */
    method Declare(argsList: seq<FieldArgs>) returns (r: Result<seq<Field>, Error>)
      modifies this
      ensures r.Failure? <==> exists i :: 0 <= i < |argsList| && argsList[i].size.None?
      ensures r.Failure? ==> r.error == MissingSize
      ensures r.Failure? ==> exists i :: && 0 <= i < |argsList| && argsList[i].size.None?
                                         && (forall k :: 0 <= k < i ==> argsList[k].size.Some?)
                                         && counter == old(counter) + i + 1
      ensures r.Success? ==> |r.value| == |argsList| && forall i :: 0 <= i < |r.value| ==>
                r.value[i] == Field(argsList[i].kind, argsList[i].name, argsList[i].verboseName, argsList[i].size.value,
                                    argsList[i].choices, argsList[i].default, argsList[i].validators, old(counter) + i)
      ensures r.Success? ==> |r.value| == |argsList| && counter == old(counter) + |argsList|
      ensures r.Success? ==> forall i :: 0 <= i < |r.value| ==>
                r.value[i].size == argsList[i].size.value && old(counter) <= r.value[i].counter < counter
      ensures r.Success? ==> forall i, j :: 0 <= i < j < |r.value| ==> r.value[i].counter < r.value[j].counter
    {
      var fields: seq<Field> := [];
      for i := 0 to |argsList|
        invariant |fields| == i && counter == old(counter) + i
        invariant forall k :: 0 <= k < i ==> argsList[k].size.Some?
        invariant forall k :: 0 <= k < i ==>
                    fields[k] == Field(argsList[k].kind, argsList[k].name, argsList[k].verboseName, argsList[k].size.value,
                                       argsList[k].choices, argsList[k].default, argsList[k].validators, old(counter) + k)
      {
        var made := NewField(argsList[i]);
        if made.Failure? {
          assert argsList[i].size.None? && counter == old(counter) + i + 1;
          return Failure(made.error);
        }
        fields := fields + [made.value];
      }
      return Success(fields);
    }
  }

  // ---------------------------------------------------------------- to_python

  /** `StringField.to_python`: strings are stripped, anything else is invalid. */
  function StringToPython(raw: Value): (r: Result<Value, Error>)
    ensures r.Success? <==> raw.Str?
    ensures r.Success? ==> r.value.Str? && Unpadded(r.value.s) && |r.value.s| <= |raw.s|
    ensures r.Failure? ==> r.error == InvalidFormat(raw)
  {
    match raw
    case Str(s) => Success(Str(Strip(s)))
    case _ => Failure(InvalidFormat(raw))
  }

  /**
   * `IntegerField.to_python`, i.e. `int(value)`: an int is kept, a string
   * is parsed (ValueError becomes the field's 'invalid' error), a Decimal
   * is truncated; the TypeError `int()` raises for other objects escapes.
   */
  function IntegerToPython(raw: Value): (r: Result<Value, Error>)
    ensures r.Success? <==> raw.Int? || raw.Dec? || (raw.Str? && ParseInt(raw.s).Some?)
    ensures r.Success? ==> r.value.Int?
    ensures raw.Int? ==> r == Success(raw)
    ensures raw.Str? && r.Failure? ==> r.error == InvalidFormat(raw)
    ensures !(raw.Int? || raw.Dec? || raw.Str?) ==> r == Failure(Runtime(TypeError))
  {
    match raw
    case Int(_) => Success(raw)
    case Str(s) =>
      (match ParseInt(s)
       case Some(n) => Success(Int(n))
       case None => Failure(InvalidFormat(raw)))
    case Dec(c, e) => Success(Int(DecimalToInt(c, e)))
    case _ => Failure(Runtime(TypeError))
  }

  /** `datetime.date(int(s[:4]), int(s[4:6]), int(s[6:]))`; `None` for any ValueError. */
  function DateFromText(s: string): (r: Option<Date>)
    ensures r.Some? <==>
              && ParseInt(PySlice(s, 0, 4)).Some? && ParseInt(PySlice(s, 4, 6)).Some? && ParseInt(PySlice(s, 6, |s|)).Some?
              && IsValidDate(Date(ParseInt(PySlice(s, 0, 4)).value, ParseInt(PySlice(s, 4, 6)).value,
                                  ParseInt(PySlice(s, 6, |s|)).value))
    ensures r.Some? ==> && IsValidDate(r.value)
                        && ParseInt(PySlice(s, 0, 4)) == Some(r.value.year)
                        && ParseInt(PySlice(s, 4, 6)) == Some(r.value.month)
                        && ParseInt(PySlice(s, 6, |s|)) == Some(r.value.day)
  {
    match (ParseInt(PySlice(s, 0, 4)), ParseInt(PySlice(s, 4, 6)), ParseInt(PySlice(s, 6, |s|)))
    case (Some(y), Some(m), Some(d)) => if IsValidDate(Date(y, m, d)) then Some(Date(y, m, d)) else None
    case _ => None
  }

  /**
   * `datetime.date` takes its arguments as C ints: a day part that `int()`
   * reads but that lies outside them raises OverflowError, which the
   * `except ValueError` does not catch. The year and month parts, at most
   * four and two characters, always fit.
   */
  predicate DayOverflows(s: string)
    ensures DayOverflows(s) ==> DateFromText(s).None?
  {
    && ParseInt(PySlice(s, 0, 4)).Some?
    && ParseInt(PySlice(s, 4, 6)).Some?
    && ParseInt(PySlice(s, 6, |s|)).Some?
    && !(-0x8000_0000 <= ParseInt(PySlice(s, 6, |s|)).value < 0x8000_0000)
  }

  /**
   * `DateField.to_python`: a datetime is cut to its date, a date is kept,
   * a string is read as YYYYMMDD; slicing anything else raises TypeError.
   */
  function DateToPython(raw: Value): (r: Result<Value, Error>)
    ensures r.Success? ==> r.value.DateVal?
    ensures raw.DateVal? ==> r == Success(raw)
    ensures raw.DateTimeVal? ==> r == Success(DateVal(raw.date))
    ensures raw.Str? && r.Success? ==> IsValidDate(r.value.date)
    ensures raw.Str? ==> (r == Failure(Runtime(OverflowError)) <==> DayOverflows(raw.s))
    ensures raw.Str? && !DayOverflows(raw.s) ==> (r.Failure? <==> r == Failure(InvalidFormat(raw)))
    ensures !(raw.Str? || raw.DateVal? || raw.DateTimeVal?) ==> r == Failure(Runtime(TypeError))
  {
    match raw
    case DateTimeVal(d, _, _, _) => Success(DateVal(d))
    case DateVal(_) => Success(raw)
    case Str(s) =>
      if DayOverflows(s) then Failure(Runtime(OverflowError))
      else
        (match DateFromText(s)
         case Some(d) => Success(DateVal(d))
         case None => Failure(InvalidFormat(raw)))
    case _ => Failure(Runtime(TypeError))
  }

  /**
   * The text handed to `Decimal` as written, `s[:-places] + "." + s[-places:]`:
   * since `-0` is 0, no places puts the point in front of every digit.
   */
  function PointInsertedAsWritten(s: string, places: nat): string {
    if places == 0 || places > |s| then "." + s else s[..|s| - places] + "." + s[|s| - places..]
  }

  /**
   * The text handed to `Decimal` as intended: a point `places` characters
   * from the right, or in front when the text is shorter.
   */
  function PointInserted(s: string, places: nat): string {
    if places <= |s| then s[..|s| - places] + "." + s[|s| - places..] else "." + s
  }

  /**
   * `DecimalField.to_python` as written: None is kept; anything else is
   * sliced, so a Decimal (or any non-string) raises TypeError, and so does
   * `-None` when `decimal_places` is missing.
   */
  function DecimalToPythonAsWritten(places: Option<nat>, raw: Value): (r: Result<Value, Error>)
    ensures raw.Null? ==> r == Success(Null)
    ensures r.Success? ==> r.value.Null? || r.value.Dec?
    ensures raw.Str? && places.None? ==> r == Failure(Runtime(TypeError))
    ensures raw.Str? && places.Some? && r.Failure? ==>
              r.error == InvalidFormat(Str(PointInsertedAsWritten(raw.s, places.value)))
    ensures !(raw.Null? || raw.Str?) ==> r == Failure(Runtime(TypeError))
  {
    match raw
    case Null => Success(Null)
    case Str(s) =>
      (match places
       case None => Failure(Runtime(TypeError))
       case Some(p) =>
         var t := PointInsertedAsWritten(s, p);
         match ParseDecimal(t)
         case Some((c, e)) => Success(Dec(c, e))
         case None => Failure(InvalidFormat(Str(t))))
    case _ => Failure(Runtime(TypeError))
  }

  /**
   * `DecimalField.to_python` as intended: None is kept, a Decimal is kept, a string
   * gets its point inserted and is read as a Decimal (InvalidOperation
   * becomes the field's 'invalid' error, reporting the dotted text).
   * Without `decimal_places`, `-None` raises TypeError; slicing any other
   * object raises TypeError.
   */
  function DecimalToPython(places: Option<nat>, raw: Value): (r: Result<Value, Error>)
    ensures r.Success? ==> r.value.Null? || r.value.Dec?
    ensures raw.Null? || raw.Dec? ==> r == Success(raw)
    ensures raw.Str? && places.None? ==> r == Failure(Runtime(TypeError))
    ensures raw.Str? && places.Some? && r.Failure? ==> r.error == InvalidFormat(Str(PointInserted(raw.s, places.value)))
    ensures !(raw.Null? || raw.Dec? || raw.Str?) ==> r == Failure(Runtime(TypeError))
  {
    match raw
    case Null => Success(Null)
    case Dec(_, _) => Success(raw)
    case Str(s) =>
      (match places
       case None => Failure(Runtime(TypeError))
       case Some(p) =>
         var t := PointInserted(s, p);
         match ParseDecimal(t)
         case Some((c, e)) => Success(Dec(c, e))
         case None => Failure(InvalidFormat(Str(t))))
    case _ => Failure(Runtime(TypeError))
  }

  /** `to_python` of the field class `kind`. */
  function ToPython(kind: Kind, raw: Value): (r: Result<Value, Error>)
    ensures r.Success? && kind == StringKind ==> r.value.Str?
    ensures r.Success? && kind == IntegerKind ==> r.value.Int?
    ensures r.Success? && kind == DateKind ==> r.value.DateVal?
    ensures r.Success? && kind.DecimalKind? ==> r.value.Null? || r.value.Dec?
  {
    match kind
    case StringKind => StringToPython(raw)
    case IntegerKind => IntegerToPython(raw)
    case DateKind => DateToPython(raw)
    case DecimalKind(places) => DecimalToPython(places, raw)
  }

  // ---------------------------------------------------------- value_to_string

  /**
   * `StringField`'s layout: the value and spaces up to `size` when it fits,
   * otherwise its first `size` characters.
   */
  function PadOrTruncate(size: nat, v: string): (r: string)
    ensures |r| == size
    ensures |v| <= size ==> r[..|v|] == v && forall i :: |v| <= i < size ==> r[i] == ' '
    ensures |v| > size ==> r == v[..size]
  {
    if |v| <= size then v + Repeat(' ', size - |v|) else v[..size]
  }

  /** `strftime('%Y%m%d')`. */
  function CompactDate(d: Date): (r: string)
    ensures |r| >= 8
    ensures IsValidDate(d) ==> |r| == 8
  {
    FormatIntWidth(4, d.year);
    FormatIntWidth(2, d.month);
    FormatIntWidth(2, d.day);
    FormatInt(4, d.year) + FormatInt(2, d.month) + FormatInt(2, d.day)
  }

  /** `int(str(v).replace('.', '').replace(',', ''))`: `None` is ValueError. */
  function MinorUnits(v: Value): Option<int> {
    ParseInt(RemoveChar(RemoveChar(Show(v), '.'), ','))
  }

  /**
   * `DecimalField.value_to_string` as written: the digits of `str(v)` with
   * the separators dropped, read as an integer and zero-padded. The
   * field's `decimal_places` plays no part.
   */
  function DecimalTextAsWritten(size: nat, v: Value): (r: Result<string, Error>)
    ensures r.Success? <==> MinorUnits(v).Some?
    ensures r.Success? ==> |r.value| >= size && ParseInt(r.value) == MinorUnits(v)
    ensures r.Failure? ==> r.error == Runtime(ValueError)
  {
    match MinorUnits(v)
    case Some(n) =>
      ParseFormatInt(size, n);
      Success(FormatInt(size, n))
    case None => Failure(Runtime(ValueError))
  }

  /**
   * `DecimalField.value_to_string` as intended, for a Decimal coef * 10^exp
   * and a field with `decimal_places` set: the whole number of 10^-places
   * units the value holds (truncated like `'%d'`), zero-padded, so that
   * `to_python` puts the point back where it was.
   */
  function DecimalText(places: nat, size: nat, coef: int, exp: int): (r: string)
    ensures |r| >= size
    ensures ParseInt(r) == Some(DecimalToInt(coef, exp + places))
  {
    ParseFormatInt(size, DecimalToInt(coef, exp + places));
    FormatInt(size, DecimalToInt(coef, exp + places))
  }

  /** The rendering half of `value_to_string`, once the value is fetched. */
  function RenderValue(f: Field, v: Value): (r: Result<string, Error>)
    ensures f.kind == StringKind ==> (r.Success? <==> v.Str?) && (r.Success? ==> |r.value| == f.size)
    ensures f.kind == IntegerKind ==> (r.Success? <==> v.Int? || v.Dec?) && (r.Success? ==> |r.value| >= f.size)
    ensures f.kind == DateKind ==> (r.Success? <==> v.DateVal? || v.DateTimeVal?) && (r.Success? ==> |r.value| >= 8)
    ensures f.kind.DecimalKind? && r.Success? ==> |r.value| >= f.size
    ensures r.Failure? ==> r.error.Runtime?
  {
    match f.kind
    case StringKind =>
      if v.Str? then Success(PadOrTruncate(f.size, v.s)) else Failure(Runtime(TypeError))
    case IntegerKind =>
      (match v
       case Int(i) => Success(FormatInt(f.size, i))
       case Dec(c, e) => Success(FormatInt(f.size, DecimalToInt(c, e)))
       case _ => Failure(Runtime(TypeError)))
    case DateKind =>
      (match v
       case DateVal(d) => Success(CompactDate(d))
       case DateTimeVal(d, _, _, _) => Success(CompactDate(d))
       case _ => Failure(Runtime(AttributeError)))
    case DecimalKind(places) =>
      if places.Some? && v.Dec? then Success(DecimalText(places.value, f.size, v.coef, v.exp))
      else DecimalTextAsWritten(f.size, v)
  }

  // ------------------------------------------------------- defaults and names

  /** `has_default`: the default is anything but None. */
  predicate HasDefault(f: Field) {
    !(f.default.Literal? && f.default.value.Null?)
  }

  /**
   * `get_default` called while the outside state is `clock`: "" without a
   * default, the callable's fresh result, or `str(default)`.
   */
  function GetDefault(f: Field, clock: nat): (r: Value)
    ensures !HasDefault(f) ==> r == Str("")
    ensures f.default.Literal? ==> r.Str?
    ensures f.default.Literal? && HasDefault(f) ==> r.s == Show(f.default.value)
    ensures f.default.Callable? ==> r == f.default.produce(clock)
  {
    if !HasDefault(f) then Str("")
    else
      match f.default
      case Callable(produce) => produce(clock)
      case Literal(v) => Str(Show(v))
  }

  /** The `obj` passed to `value_to_string`: None (at some moment), or an object's attributes. */
  datatype Subject = Absent(clock: nat) | Instance(attrs: map<string, Value>)

  /** `getattr(obj, self.name)`. */
  function Attribute(f: Field, attrs: map<string, Value>): (r: Result<Value, Error>)
    ensures r.Success? <==> f.name.Some? && f.name.value in attrs
    ensures r.Success? ==> r.value == attrs[f.name.value]
  {
    match f.name
    case None => Failure(Runtime(TypeError))
    case Some(n) => if n in attrs then Success(attrs[n]) else Failure(Runtime(AttributeError))
  }

  /** `_get_val_from_obj`. */
  function ValueFromObj(f: Field, obj: Subject): (r: Result<Value, Error>)
    ensures obj.Absent? ==> r == Success(GetDefault(f, obj.clock))
    ensures obj.Instance? ==> (r.Success? <==> f.name.Some? && f.name.value in obj.attrs)
    ensures obj.Instance? && r.Success? ==> r.value == obj.attrs[f.name.value]
    ensures obj.Instance? && f.name.None? ==> r == Failure(Runtime(TypeError))
    ensures obj.Instance? && f.name.Some? && f.name.value !in obj.attrs ==> r == Failure(Runtime(AttributeError))
  {
    match obj
    case Absent(clock) => Success(GetDefault(f, clock))
    case Instance(attrs) => Attribute(f, attrs)
  }

  /** `value_to_string(obj)`: fetch the value, then render it. */
  function ValueToString(f: Field, obj: Subject): (r: Result<string, Error>)
    ensures obj.Absent? ==> r == RenderValue(f, GetDefault(f, obj.clock))
    ensures obj.Instance? && f.name.Some? && f.name.value in obj.attrs ==> r == RenderValue(f, obj.attrs[f.name.value])
    ensures obj.Instance? && f.name.None? ==> r == Failure(Runtime(TypeError))
    ensures obj.Instance? && f.name.Some? && f.name.value !in obj.attrs ==> r == Failure(Runtime(AttributeError))
    ensures r.Failure? ==> r.error.Runtime?
  {
    match ValueFromObj(f, obj)
    case Failure(e) => Failure(e)
    case Success(v) => RenderValue(f, v)
  }

  /**
   * `get_verbose_name`: a non-empty explicit verbose name, else the name
   * with every underscore turned into a space (AttributeError without one).
   */
  function VerboseName(f: Field): (r: Result<string, Error>)
    ensures f.verboseName.Some? && f.verboseName.value != [] ==> r == Success(f.verboseName.value)
    ensures (f.verboseName.None? || f.verboseName.value == []) ==>
              (r.Success? <==> f.name.Some?)
    ensures (f.verboseName.None? || f.verboseName.value == []) && f.name.Some? ==>
              && |r.value| == |f.name.value| && '_' !in r.value
              && forall i :: 0 <= i < |r.value| ==>
                   r.value[i] == if f.name.value[i] == '_' then ' ' else f.name.value[i]
  {
    if f.verboseName.Some? && f.verboseName.value != [] then Success(f.verboseName.value)
    else
      match f.name
      case None => Failure(Runtime(AttributeError))
      case Some(n) =>
        var spaced := ReplaceChar(n, '_', ' ');
        assert forall i :: 0 <= i < |spaced| ==> spaced[i] != '_';
        Success(spaced)
  }

  /** One entry of `get_dicts`. */
  datatype FieldInfo = FieldInfo(name: string, verboseName: string, value: Value)

  /** `to_dict(obj)`: the name, the verbose name, and `to_python` of the attribute. */
  function ToDict(f: Field, attrs: map<string, Value>): (r: Result<FieldInfo, Error>)
    ensures r.Success? <==>
              && VerboseName(f).Success? && f.name.Some? && f.name.value in attrs
              && ToPython(f.kind, attrs[f.name.value]).Success?
    ensures r.Success? ==> && r.value.name == f.name.value
                           && Success(r.value.verboseName) == VerboseName(f)
                           && Success(r.value.value) == ToPython(f.kind, attrs[f.name.value])
    ensures VerboseName(f).Failure? ==> r == Failure(VerboseName(f).error)
  {
    match VerboseName(f)
    case Failure(e) => Failure(e)
    case Success(verbose) =>
      match Attribute(f, attrs)
      case Failure(e) => Failure(e)
      case Success(raw) =>
        match ToPython(f.kind, raw)
        case Failure(e) => Failure(e)
        case Success(v) => Success(FieldInfo(f.name.value, verbose, v))
  }

  // --------------------------------------------------------------- validation

  /** `validate`: a value `==` to none of a non-empty `choices` is an invalid choice. */
  function Validate(f: Field, v: Value): (r: Outcome<Error>)
    ensures r.Pass? <==> |f.choices| == 0 || InChoices(v, f.choices)
    ensures r.Fail? ==> r.error == InvalidChoice(v)
  {
    if |f.choices| > 0 && !InChoices(v, f.choices) then Fail(InvalidChoice(v)) else Pass
  }

  /**
   * `validate` as written: the membership test names a global `choices`
   * that does not exist, so any field with choices raises NameError.
   */
  function ValidateAsWritten(f: Field, v: Value): (r: Outcome<Error>)
    ensures r.Pass? <==> |f.choices| == 0
    ensures r.Fail? ==> r.error == Runtime(NameError)
  {
    if |f.choices| > 0 then Fail(Runtime(NameError)) else Pass
  }

  function Messages(c: Check): seq<string> {
    match c
    case Accept => []
    case Reject(ms) => ms
    case Raise(_) => []
  }

  /** The messages of every validator that raised, in validator order. */
  function ValidatorMessages(vs: seq<Value -> Check>, v: Value): seq<string> {
    if |vs| == 0 then [] else ValidatorMessages(vs[..|vs| - 1], v) + Messages(vs[|vs| - 1](v))
  }

  /** The exception of the first validator that raises something other than ValidationError. */
  function FirstRaise(vs: seq<Value -> Check>, v: Value): Option<RuntimeError> {
    if |vs| == 0 then None
    else
      match FirstRaise(vs[..|vs| - 1], v)
      case Some(k) => Some(k)
      case None => if vs[|vs| - 1](v).Raise? then Some(vs[|vs| - 1](v).kind) else None
  }

  /** Once a validator has raised past `run_validators`, the later ones do not matter. */
  lemma {:induction false} FirstRaiseStays(vs: seq<Value -> Check>, v: Value, i: nat)
    requires i <= |vs| && FirstRaise(vs[..i], v).Some?
    ensures FirstRaise(vs, v) == FirstRaise(vs[..i], v)
    decreases |vs| - i
  {
    if i < |vs| {
      assert vs[..i + 1][..i] == vs[..i];
      FirstRaiseStays(vs, v, i + 1);
    } else {
      assert vs[..i] == vs;
    }
  }

  /** One more validator run: its messages are appended, and it is the first to raise if none before it did. */
  lemma ValidatorsStep(vs: seq<Value -> Check>, v: Value, i: nat)
    requires i < |vs|
    ensures ValidatorMessages(vs[..i + 1], v) == ValidatorMessages(vs[..i], v) + Messages(vs[i](v))
    ensures FirstRaise(vs[..i], v).None? ==>
              FirstRaise(vs[..i + 1], v) == if vs[i](v).Raise? then Some(vs[i](v).kind) else None
  {
    var pre := vs[..i + 1];
    assert pre[..i] == vs[..i] && pre[i] == vs[i];
  }

  /** What `run_validators` raises: the first escaping exception, else the collected messages. */
  function ValidatorsOutcome(vs: seq<Value -> Check>, v: Value): Outcome<Error> {
    match FirstRaise(vs, v)
    case Some(k) => Fail(Runtime(k))
    case None =>
      var ms := ValidatorMessages(vs, v);
      if |ms| == 0 then Pass else Fail(InvalidValidators(ms))
  }

  /**
   * `run_validators`: every validator runs, even after one has raised
   * ValidationError; the messages are collected and raised together when
   * there are any. Any other exception stops the loop and escapes.
   */
  method RunValidators(f: Field, v: Value) returns (r: Outcome<Error>)
    ensures r == ValidatorsOutcome(f.validators, v)
  {
    var errors: seq<string> := [];
    for i := 0 to |f.validators|
      invariant FirstRaise(f.validators[..i], v).None?
      invariant errors == ValidatorMessages(f.validators[..i], v)
    {
      ValidatorsStep(f.validators, v, i);
      match f.validators[i](v) {
        case Accept =>
        case Reject(ms) => errors := errors + ms;
        case Raise(k) =>
          FirstRaiseStays(f.validators, v, i + 1);
          return Fail(Runtime(k));
      }
    }
    assert f.validators[..|f.validators|] == f.validators;
    if errors != [] {
      return Fail(InvalidValidators(errors));
    }
    return Pass;
  }

  /** What `clean` returns or raises: `to_python`, then `validate`, then the validators. */
  function Cleaned(f: Field, raw: Value): (r: Result<Value, Error>)
    ensures r.Success? <==>
              && ToPython(f.kind, raw).Success?
              && Validate(f, ToPython(f.kind, raw).value) == Pass
              && ValidatorsOutcome(f.validators, ToPython(f.kind, raw).value) == Pass
    ensures r.Success? ==> r == ToPython(f.kind, raw)
    ensures ToPython(f.kind, raw).Failure? ==> r == Failure(ToPython(f.kind, raw).error)
  {
    match ToPython(f.kind, raw)
    case Failure(e) => Failure(e)
    case Success(v) =>
      match Validate(f, v)
      case Fail(e) => Failure(e)
      case Pass =>
        match ValidatorsOutcome(f.validators, v)
        case Fail(e) => Failure(e)
        case Pass => Success(v)
  }

  /** `clean`: the first stage that raises decides the error; otherwise the converted value. */
  method Clean(f: Field, raw: Value) returns (r: Result<Value, Error>)
    ensures r == Cleaned(f, raw)
  {
    var converted := ToPython(f.kind, raw);
    if converted.Failure? {
      return Failure(converted.error);
    }
    var value := converted.value;
    var checked := Validate(f, value);
    if checked.Fail? {
      return Failure(checked.error);
    }
    var validated := RunValidators(f, value);
    if validated.Fail? {
      return Failure(validated.error);
    }
    return Success(value);
  }
}
