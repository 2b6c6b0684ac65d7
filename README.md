# fixedwidthtext in Dafny

A model of the record engine of `fixedwidthtext`, a Python library for
fixed-width text records. A record type declares typed fields, each with
a width: strings, integers, dates and decimals. A record is read from a
line by cutting the line into consecutive slices, one per field. It can
also be built from keyword values. Every field is then cleaned: converted
with `to_python`, checked against its choices, and run through its
validators. `to_string` writes the record back as a line, and `get_dicts`
lists the record's fields with their names, verbose names and values.

The project has these modules:

- `Text` (text.dfy): the Python string and integer builtins the library
  relies on. These are `str.strip`, `int(str)`, `'%0Nd' % i`, `str(int)`
  and slicing with clamped bounds.
- `Values` (values.dfy): the dynamic values a field sees (None, str,
  int, date, datetime, Decimal), calendar dates, `Decimal(str)` and
  `str(Decimal)`. It also holds the errors the code raises or lets
  through.
- `Fields` (fields.dfy): the field types. `Field` is a value. The
  class-wide creation counter is the `FieldFactory` class. `to_python`,
  `value_to_string`, `validate`, `run_validators` and `clean` are
  functions, with methods for the loops.
- `Schemas` (schema.dfy): what `Options._prepare` computes from a
  record-type body. That is the fields named after their attributes,
  ordered by creation counter, and their total width.
- `Models` (models.dfy): the `Options` and `LineManager` classes, whose
  methods update their fields as the Python methods do. Each loop is
  proved against a function that specifies it.
- `FieldProperties`, `CleanProperties`, `TextProperties`,
  `ModelProperties`: the properties. They cover round trips of each field
  type, `clean`, `clean_fields`, line slicing and writing, and full
  record round trips.
- `FieldExamples`, `ModelExamples`: the library's own test cases, stated
  as lemmas and methods.
- `Findings` (findings.dfy): the places where `DecimalField` as written
  does not do what is evidently intended (see "Findings").

Where the code does something its design evidently does not mean, the
model follows the intended behaviour. It keeps the code as written beside
it, as a separate `...AsWritten` definition, with a lemma showing the
difference.

## Model

| member | source | states |
|---|---|---|
| Fields.FieldFactory.constructor | fixedwidthtext/fields.py:11 | the class-wide creation counter starts at 0 |
| Fields.FieldFactory.NewField | fixedwidthtext/fields.py:18-40 | a new field takes the current counter and the counter advances by one, even when the missing size is then rejected; the construction fails exactly when no size is given; otherwise the field holds the given arguments |
| Fields.FieldFactory.Declare | fixedwidthtext/fields.py:37-39 | declaring fields one after another fails exactly when one lacks a size, and then the counter has advanced once for each field up to and including the first one without a size; otherwise field i is exactly the declared kind, name, verbose name, size, choices, default and validators with counter `old counter + i` |
| Fields.StringToPython | fixedwidthtext/fields.py:183-187 | succeeds exactly on strings and gives them stripped (no surrounding blanks, never longer); anything else is the field's invalid error |
| Fields.IntegerToPython | fixedwidthtext/fields.py:164-169 | succeeds exactly on ints, Decimals and strings that `int()` accepts, always with an int; an int is kept as it is; a string `int()` refuses fails with the invalid error naming that string; None and dates raise TypeError, which escapes |
| Fields.DateToPython | fixedwidthtext/fields.py:143-153 | the result is a date; a date is kept and a datetime is truncated to its date; a date read from a string is a valid calendar date; a string whose day number lies outside a C int raises OverflowError, which `except ValueError` lets through; any other string fails only with the invalid error naming it; other values raise TypeError |
| Fields.DecimalToPython | fixedwidthtext/fields.py:205-216 | None and Decimal values pass through unchanged; any success is None or a Decimal; a string with no places set raises TypeError (`-None`); a string that does not parse fails with the invalid error naming the text with the point inserted; other values raise TypeError |
| Fields.PadOrTruncate | fixedwidthtext/fields.py:176-181 | the rendering is exactly `size` long: when the value fits, it starts with the value and every later character is a space; otherwise it is the value's first `size` characters |
| Fields.Attribute | fixedwidthtext/fields.py:125-127 | `getattr(obj, name)` succeeds exactly when the field has a name present among the attributes, and gives that attribute |
| Fields.VerboseName | fixedwidthtext/fields.py:50-53 | a non-empty verbose name is used as is; otherwise, when there is a name, character i of the result is a space where character i of the name is `_` and that character otherwise (same length, no underscore left), and without a name it fails |
| Fields.RunValidators | fixedwidthtext/fields.py:109-123 | the outcome is `ValidatorsOutcome`: every validator runs, even after one raised a ValidationError, until one raises any other exception, which stops the loop and escapes; otherwise passes exactly when no messages were collected, else fails with all of them in order |
| Fields.FirstRaiseStays | fixedwidthtext/fields.py:111-114 | once a validator in a prefix raised a non-ValidationError, the later validators do not change which exception escapes |
| Fields.Clean | fixedwidthtext/fields.py:98-107 | `clean` converts, validates and runs the validators; the first stage that raises decides the error |
| Fields.DateFromText | fixedwidthtext/fields.py:148-150 | a date is read exactly when the text's three parts cut at 4 and 6 are integers forming a valid date, and then the date's year, month and day are those integers |
| Fields.DayOverflows | fixedwidthtext/fields.py:148-153 | a day part that `int()` reads but that lies outside a C int (the OverflowError `except ValueError` lets through) never gives a date |
| Fields.DecimalToPythonAsWritten | fixedwidthtext/fields.py:205-216 | as written: None passes; any success is None or a Decimal; a string without places is TypeError; a string that does not parse is the invalid error reporting the text with the point inserted as written; every other value is TypeError |
| Fields.ToPython | fixedwidthtext/fields.py:143-216 | each field type's `to_python` yields its own type: a str, an int, a date, or None or a Decimal |
| Fields.CompactDate | fixedwidthtext/fields.py:139-141 | `strftime('%Y%m%d')` is at least 8 characters and exactly 8 for a valid date; reading it back is `FieldProperties.CompactDateRead` |
| Fields.DecimalTextAsWritten | fixedwidthtext/fields.py:199-203 | as written: succeeds exactly when the digits of `str(value)` without `.` and `,` are an integer, gives text at least `size` wide that `int()` reads as that integer, and otherwise fails with ValueError |
| Fields.DecimalText | fixedwidthtext/fields.py:199-203 | as intended: text at least `size` wide that `int()` reads as the number of 10^-places units in the value, cut towards zero |
| Fields.RenderValue | fixedwidthtext/fields.py:139-203 | per field type, when rendering succeeds and how wide it is: a string field accepts exactly strings, at exactly `size`; an integer field exactly ints and Decimals, at least `size`; a date field exactly dates and datetimes, at least 8; a Decimal field at least `size`; every failure is a Python exception rather than a ValidationError |
| Fields.GetDefault | fixedwidthtext/fields.py:62-76 | without a default (`has_default` false) the result is `""`; a literal default gives `str(default)`; a callable default gives its result for the current outside state |
| Fields.ValueFromObj | fixedwidthtext/fields.py:125-130 | without an object the value is `get_default()`; with one it is the attribute named after the field, exactly when that attribute exists, TypeError for a field without a name and AttributeError for a missing attribute |
| Fields.ValueToString | fixedwidthtext/fields.py:125-130 | `value_to_string` renders what `_get_val_from_obj` fetches: the default without an object, the attribute with one; the same TypeError and AttributeError otherwise; it only ever fails with a Python exception |
| Fields.ToDict | fixedwidthtext/fields.py:55-60 | the entry is built exactly when the verbose name, the attribute and its `to_python` all succeed, and then it holds the field's name, its verbose name and the converted attribute; a verbose-name failure is reported as such |
| Fields.Validate | fixedwidthtext/fields.py:94-96 | as intended: a value passes exactly when the field has no choices or the value equals one of them, and fails only with the invalid-choice error for that value |
| Fields.ValidateAsWritten | fixedwidthtext/fields.py:94-96 | as written: a value passes exactly when the field has no choices, and otherwise the undefined `choices` raises NameError |
| Fields.Cleaned | fixedwidthtext/fields.py:98-107 | `clean` succeeds exactly when `to_python` succeeds, the converted value passes `validate` and the validators pass, and then returns the converted value; a `to_python` failure is passed on unchanged |
| Text.Strip | fixedwidthtext/fields.py:187 | `str.strip()` leaves no whitespace at either end and never lengthens the text |
| Text.Repeat | fixedwidthtext/fields.py:180 | `' ' * k` has k characters, each the repeated one |
| Text.FormatInt | fixedwidthtext/fields.py:161-162 | `'%0Nd' % i` is as wide as the larger of N and the integer's own digits |
| Text.NatToString | fixedwidthtext/fields.py:200 | `str(n)` is a non-empty digit string without a leading zero whose value is n |
| Text.PySlice | fixedwidthtext/models.py:91 | within bounds, Python's `s[i:j]` is the ordinary slice; it is never longer than the text |
| Text.ReplaceChar | fixedwidthtext/fields.py:53 | `str.replace` of one character keeps the length and changes exactly the matching characters |
| Text.RemoveChar | fixedwidthtext/fields.py:201 | `replace(c, '')` leaves no c and never lengthens the text |
| TextProperties.RemoveCharOne | fixedwidthtext/fields.py:201 | `replace(c, '')` of the one-character text c is empty; any other single character is kept |
| TextProperties.RemoveCharConcat | fixedwidthtext/fields.py:201 | `(a + b).replace(c, '')` is `a.replace(c, '') + b.replace(c, '')`, so with the two cases above every character other than c is kept, in order |
| Values.DaysInMonth | fixedwidthtext/fields.py:149-150 | `datetime.date` accepts 28 to 31 days, 29 exactly in February of a leap year |
| Text.ParseInt | fixedwidthtext/fields.py:164-169 | `int(s)` succeeds exactly when the stripped text is one or more digits with at most one leading sign; unsigned digits are read as their value and a leading minus as its negative |
| Values.ParseDecimal | fixedwidthtext/fields.py:213 | `Decimal(t)` of a stripped digit string is its value with exponent 0; any result comes from non-blank text, and a negative one from text starting with a minus |
| Values.DecimalToString | fixedwidthtext/fields.py:200 | `str(Decimal)` is non-empty, starts with a minus exactly for a negative coefficient, and for exponent 0 is the integer's own text |
| CleanProperties.ToPythonIdempotent | fixedwidthtext/fields.py:143-216 | converting a value `to_python` produced gives the same result again, for every field type |
| CleanProperties.CleanIdempotent | fixedwidthtext/fields.py:98-107 | cleaning a cleaned value gives it back |
| CleanProperties.CleanRespectsChoices | fixedwidthtext/fields.py:93-95 | a value `clean` returns equals one of the field's choices, by Python `==` (an int and a Decimal of the same number are equal), when there are any |
| CleanProperties.ChoicePasses | fixedwidthtext/fields.py:94 | a value that is itself one of the choices passes `validate` |
| CleanProperties.ChoicesCompareNumbers | fixedwidthtext/fields.py:94 | `in` compares numbers by value: Decimal('1.00') is among the choices [Decimal(1)], and the int 14 among [Decimal(14)] |
| CleanProperties.ValidatorMessagesAppend | fixedwidthtext/fields.py:111-121 | the messages of two runs of validators, one after the other, are those of each run concatenated |
| CleanProperties.ValidatorMessagesComplete | fixedwidthtext/fields.py:111-121 | every message of every validator is reported |
| CleanProperties.ValidatorMessagesSound | fixedwidthtext/fields.py:111-121 | every reported message was raised by some validator |
| CleanProperties.ValidatorMessagesEmpty | fixedwidthtext/fields.py:122-123 | no message is collected exactly when no validator raised one |
| CleanProperties.FirstRaiseFound | fixedwidthtext/fields.py:111-114 | no exception escapes the validators exactly when none of them raises anything but a ValidationError; when one escapes, it is that of the first validator that raises one |
| CleanProperties.CleanValidators | fixedwidthtext/fields.py:104-106 | once conversion and `validate` passed: a validator raising another exception makes `clean` raise it; otherwise `clean` fails exactly when some validator raised a ValidationError, and then reports all messages |
| CleanProperties.BlankDefault | fixedwidthtext/fields.py:62-76 | a string field without a default renders `""` as a line of blanks as wide as the field |
| CleanProperties.IntegerDefaultUnrendered | fixedwidthtext/fields.py:72-75 | `get_default` turns a non-callable default into a string, so an integer field cannot render its own integer default (TypeError) |
| CleanProperties.DefaultResolution | fixedwidthtext/fields.py:62-76 | the three cases of `get_default`: a None default gives `""`, a callable default gives its result for the current outside state, any other default gives `str(default)`; so a literal default gives the same string at every call |
| FieldProperties.StringRoundTrip | fixedwidthtext/fields.py:176-187 | an unpadded string that fits is read back unchanged from its padded rendering |
| FieldProperties.StringReRender | fixedwidthtext/fields.py:176-187 | a slice made of an unpadded value and trailing blanks reads as the value and is rendered back exactly |
| FieldProperties.IntegerRoundTrip | fixedwidthtext/fields.py:159-169 | `int()` reads back every integer rendered by `'%0Nd'`, at any width |
| FieldProperties.IntegerCanonical | fixedwidthtext/fields.py:159-169 | a slice of digits is read as its value and rendered back exactly at its width |
| FieldProperties.DateRoundTrip | fixedwidthtext/fields.py:139-153 | a valid date renders in 8 characters and is read back from them |
| FieldProperties.DateCanonical | fixedwidthtext/fields.py:139-153 | eight digits that form a valid date are rendered back exactly |
| FieldProperties.DecimalParse | fixedwidthtext/fields.py:205-213 | a slice of at least `places` digits is read as its value times 10^-places |
| FieldProperties.DecimalParseShort | fixedwidthtext/fields.py:209-213 | a slice shorter than `places` gets the point in front of all its digits: exponent minus its length |
| FieldProperties.NegativeDecimalParse | fixedwidthtext/fields.py:209-213 | a minus sign and at least `places` digits are read as the negative value times 10^-places |
| FieldProperties.DecimalRoundTrip | fixedwidthtext/fields.py:199-213 | with places set, a Decimal written and read back is the number of 10^-places units it holds, cut towards zero |
| FieldProperties.DecimalRoundTripExact | fixedwidthtext/fields.py:199-213 | that number is the original Decimal when it has no more fraction digits than `places` |
| FieldProperties.DecimalCanonical | fixedwidthtext/fields.py:199-213 | a slice of at least `places` digits is read as its units and the rendering of those units gives the slice back (places 0 included) |
| FieldProperties.FieldRoundTrip | fixedwidthtext/fields.py:139-216 | for every field type, a value the field writes exactly renders in exactly `size` characters and `to_python` reads it back unchanged |
| FieldProperties.StringFieldRoundTrip | fixedwidthtext/fields.py:176-187 | an unpadded string that fits is written in `size` characters and read back unchanged |
| FieldProperties.IntegerFieldRoundTrip | fixedwidthtext/fields.py:159-169 | an integer that fits is written in `size` characters and read back unchanged |
| FieldProperties.DateFieldRoundTrip | fixedwidthtext/fields.py:139-153 | a valid date in an 8-wide field is written in 8 characters and read back unchanged |
| FieldProperties.DecimalFieldRoundTrip | fixedwidthtext/fields.py:199-216 | a Decimal in 10^-places units that fits is written in `size` characters and read back unchanged |
| FieldProperties.DateFromParts | fixedwidthtext/fields.py:148-153 | text cut at 4 and 6 is read as a date exactly when its three integers form a valid one |
| FieldProperties.DateTextRead | fixedwidthtext/fields.py:143-153 | text that gives a date does not overflow, and `to_python` reads it as that date |
| FieldProperties.CompactDateRead | fixedwidthtext/fields.py:139-153 | the YYYYMMDD text of a valid date is read back as that date |
| FieldProperties.DateCanonicalParts | fixedwidthtext/fields.py:139-153 | four, two and two digits that form a date are written back exactly |
| FieldProperties.DecimalTextUnscaled | fixedwidthtext/fields.py:199-203 | a Decimal already in 10^-places units is written as its coefficient |
| FieldProperties.DecimalTextCanonical | fixedwidthtext/fields.py:199-203 | a digit string's value in 10^-places units is written back as that string at its width |
| FieldProperties.DecimalRenderParse | fixedwidthtext/fields.py:205-213 | `'%0Nd' % n` with room for a sign is read as n * 10^-places |
| FieldProperties.RenderParseNonNegative | fixedwidthtext/fields.py:205-213 | a non-negative n zero-padded to at least `places` is read as n * 10^-places |
| FieldProperties.RenderParseNegative | fixedwidthtext/fields.py:205-213 | a negative n zero-padded to more than `places` is read as n * 10^-places |
| FieldProperties.DecimalUnitsRoundTrip | fixedwidthtext/fields.py:199-213 | with more width than places, a Decimal in 10^-places units is written as its coefficient and read back unchanged |
| FieldProperties.PointSplit | fixedwidthtext/fields.py:209-211 | the point goes in front of the last `places` digits, or of all of them when there are fewer |
| FieldProperties.ParsePointed | fixedwidthtext/fields.py:213 | `Decimal('a.b')` of digit strings is their digits' value times 10^-len(b) |
| FieldProperties.ParsePointedNegative | fixedwidthtext/fields.py:213 | `Decimal('-a.b')` is the negative of that |
| FieldProperties.DecimalFieldParts | fixedwidthtext/fields.py:199-213 | with places set and more width than places, a Decimal in 10^-places units is rendered as its coefficient zero-padded to `size`, and that text is read back as the same Decimal |
| TextProperties.StripIdempotent | fixedwidthtext/fields.py:187 | stripping twice is stripping once |
| TextProperties.StripPadded | fixedwidthtext/fields.py:180-187 | stripping an unpadded value followed by blanks gives the value |
| TextProperties.StripIsInfix | fixedwidthtext/fields.py:187 | the stripped text is a contiguous part of the text with only whitespace around it |
| TextProperties.ParseFormatInt | fixedwidthtext/fields.py:159-166 | `int('%0Nd' % i) == i` for every integer and width |
| TextProperties.FormatIntWidth | fixedwidthtext/fields.py:159-162 | `'%0Nd' % i` is at least N wide, and exactly N wide iff -10^(N-1) < i < 10^N |
| TextProperties.FormatIntCanonical | fixedwidthtext/fields.py:159-162 | a digit string is what `'%0Nd'` writes for its value at its own width |
| TextProperties.StripUnpadded | fixedwidthtext/fields.py:187 | stripping unpadded text changes nothing |
| TextProperties.FormatIntNegative | fixedwidthtext/fields.py:161-162 | `'%0Nd'` of a negative integer is a minus sign and the zero-padded digits of its magnitude |
| TextProperties.FormatIntDigits | fixedwidthtext/fields.py:161-162 | `'%0Nd'` of a non-negative integer is a digit string at least N wide holding its value |
| TextProperties.NatToStringFits | fixedwidthtext/fields.py:161-162 | `str(n)` fits in `width` characters exactly when n < 10^width |
| TextProperties.ParseNegativeDigits | fixedwidthtext/fields.py:166 | `int('-' + digits)` is minus their value |
| TextProperties.RemoveCharAbsent | fixedwidthtext/fields.py:201 | removing a character the text lacks changes nothing |
| TextProperties.ParseDigits | fixedwidthtext/fields.py:166 | `int()` of a digit string is its value |
| Schemas.Named | fixedwidthtext/models.py:29-36 | naming keeps every attribute in place and names each field after its attribute |
| Schemas.FieldsOf | fixedwidthtext/models.py:38-40 | exactly the attributes that are fields are kept, with their names |
| Schemas.SortByCounter | fixedwidthtext/models.py:41-42 | sorting by creation counter is a permutation |
| Schemas.SortSorted | fixedwidthtext/models.py:41-42 | the sorted schema is ordered by creation counter |
| Schemas.PreparedSchema | fixedwidthtext/models.py:18-42 | the prepared schema is sorted by counter, has distinct names and names every field after its key |
| Schemas.DistinctPermutation | fixedwidthtext/models.py:41-42 | reordering keeps the names distinct |
| Schemas.InsertByCounter | fixedwidthtext/models.py:41-42 | inserting a field keeps every other field: one more entry, same multiset plus the new one |
| Schemas.InsertSorted | fixedwidthtext/models.py:41-42 | inserting into a schema sorted by counter keeps it sorted |
| Schemas.NamesMatchPermutation | fixedwidthtext/models.py:41-42 | reordering keeps every field named after its key |
| Schemas.FieldsOfDistinct | fixedwidthtext/models.py:38-40 | fields taken from distinct attribute names have distinct names |
| Schemas.NamedFields | fixedwidthtext/models.py:29-40 | the fields of a named body have distinct names and each is named after its key |
| Models.Populated | fixedwidthtext/models.py:80-82 | every schema name holds an attribute after populating |
| Models.CleanedRecord | fixedwidthtext/models.py:103-110 | cleaning writes back attributes but adds or removes none |
| Models.Options.constructor | fixedwidthtext/models.py:12-15 | a new `Options` has no fields and total size 0 |
| Models.Options.AddFieldsNames | fixedwidthtext/models.py:29-36 | fails exactly when a field is declared under a reserved name, with that name; otherwise names every field after its attribute |
| Models.Options.PopulateFields | fixedwidthtext/models.py:38-42 | the schema becomes the fields among the attributes, sorted by creation counter |
| Models.Options.ComputeTotalSize | fixedwidthtext/models.py:23-27 | the total size becomes the sum of the field widths; the fields are unchanged |
| Models.Options.Prepare | fixedwidthtext/models.py:18-21 | a reserved name fails and changes nothing; otherwise the schema is sorted, distinct, named and sized (`Valid`) |
| Models.LineManager.constructor | fixedwidthtext/models.py:72 | a new record has its schema and no attributes |
| Models.LineManager.PopulateFields | fixedwidthtext/models.py:80-82 | every field's attribute is set from the dictionary, or None when the dictionary lacks it |
| Models.LineManager.ValidateString | fixedwidthtext/models.py:95-101 | fails exactly when the line's length differs from the total size, reporting both |
| Models.LineManager.ParseAndPopulate | fixedwidthtext/models.py:84-93 | a line of the wrong length fails and changes nothing; otherwise every field is set to its slice of the line |
| Models.LineManager.CleanFields | fixedwidthtext/models.py:103-112 | every field is cleaned even after one failed; cleaned values are written back; fails exactly when some field failed, listing all failures |
| Models.LineManager.Init | fixedwidthtext/models.py:73-78 | a `string` keyword is parsed as a line, other keywords are the values; then all fields are cleaned; a non-string `string` and a line of the wrong length fail and leave the attributes unchanged |
| Models.LineManager.ToString | fixedwidthtext/models.py:114-118 | the line is the fields' renderings in schema order; the first field that fails decides |
| Models.LineManager.GetDicts | fixedwidthtext/models.py:120-124 | one entry per field in schema order; the first field that fails decides |
| Models.RenderedFailureStays | fixedwidthtext/models.py:114-118 | once a field fails to render, the later fields do not matter |
| Models.DictsFailureStays | fixedwidthtext/models.py:120-124 | once a field fails to describe itself, the later fields do not matter |
| Models.Slices | fixedwidthtext/models.py:86-92 | every field's name is a key of the dictionary `_parse_and_populate` builds; the value under each key is its slice by `ModelProperties.SlicesEntry` |
| Models.CleanErrors | fixedwidthtext/models.py:103-110 | at most one failure per field, each under a field's name; which failures and which errors are stated by `ModelProperties.CleanErrorsListed` and `ModelProperties.CleanErrorsSound` |
| Models.Rendered | fixedwidthtext/models.py:114-118 | `to_string` fails only with a Python exception; its text, the concatenation of the fields' renderings, is `ModelProperties.RenderedConcat`, and the first failure deciding is `Models.RenderedFailureStays` |
| Models.Dicts | fixedwidthtext/models.py:120-124 | `get_dicts` gives one entry per field; which entries, and when it succeeds, is `ModelProperties.DictsEntries` |
| ModelProperties.SumSizesPrefix | fixedwidthtext/models.py:23-27 | the first fields are never wider than the whole schema |
| ModelProperties.PopulatedField | fixedwidthtext/models.py:80-82 | after populating, each field holds its dictionary entry, or None |
| ModelProperties.PopulatedOther | fixedwidthtext/models.py:80-82 | populating leaves every other attribute alone, whatever extra keys the dictionary has |
| ModelProperties.SlicesCover | fixedwidthtext/models.py:86-92 | the slices, concatenated in order, are the first `total_size` characters of the line: no gap, no overlap |
| ModelProperties.SlicesPartition | fixedwidthtext/models.py:84-93 | a line of exactly `total_size` characters is the concatenation of its slices |
| ModelProperties.SliceOfField | fixedwidthtext/models.py:86-92 | field i gets the `size_i` characters starting where the earlier fields end |
| ModelProperties.SlicesEntry | fixedwidthtext/models.py:88-92 | with distinct names, the dictionary maps each field to its slice |
| ModelProperties.RenderedConcat | fixedwidthtext/models.py:114-118 | `to_string` writes the concatenation of what the fields render, when each renders |
| ModelProperties.ConcatLength | fixedwidthtext/models.py:114-118 | pieces as wide as their fields make a line of the schema's total width |
| ModelProperties.SliceIsPiece | fixedwidthtext/models.py:86-92 | in a line written piece by piece, each field's slice is its piece |
| ModelProperties.ConcatPiece | fixedwidthtext/models.py:114-118 | in a concatenation, piece i sits right after the earlier pieces |
| ModelProperties.CleanedRecordAt | fixedwidthtext/models.py:105-108 | with distinct names, each field ends up with its cleaned value, or keeps its raw value when cleaning fails |
| ModelProperties.CleanedRecordOther | fixedwidthtext/models.py:103-110 | `clean_fields` leaves attributes that are not fields untouched |
| ModelProperties.CleanErrorsListed | fixedwidthtext/models.py:109-110 | every field that fails to clean is reported under its name with its error |
| ModelProperties.CleanErrorsSound | fixedwidthtext/models.py:109-110 | every reported failure is a field's failure, under its name |
| ModelProperties.CleanErrorsEmpty | fixedwidthtext/models.py:111-112 | `clean_fields` raises exactly when some field fails to clean |
| ModelProperties.CleanedAccepted | fixedwidthtext/fields.py:98-107 | a converted value that passes validation is what `clean` returns |
| ModelProperties.FieldLine | fixedwidthtext/fields.py:78-107 | a writable attribute is written in exactly the field's width and cleans back to itself |
| ModelProperties.WrittenPieces | fixedwidthtext/models.py:114-118 | each field of a writable record writes a piece of its width that cleans back to its attribute |
| ModelProperties.CleanedAll | fixedwidthtext/models.py:103-112 | when every field cleans, nothing is reported and every field holds its cleaned value |
| ModelProperties.LineRoundTrip | fixedwidthtext/models.py:84-118 | a writable record is written as a line of `total_size` characters, and reading that line back raises nothing and restores every field |
| ModelProperties.RecordRoundTrip | fixedwidthtext/models.py:73-118 | `LineModel(string=rec.to_string())` raises nothing and has the same schema and the same value in every field as `rec` |
| ModelProperties.JoinedConcat | fixedwidthtext/models.py:86-92 | the fields' slices of a line, concatenated in schema order, are the slices `Joined` describes |
| ModelProperties.PopulatedSlices | fixedwidthtext/models.py:80-93 | `_parse_and_populate(line)` leaves every field holding its slice of the line |
| ModelProperties.CleanedSlices | fixedwidthtext/models.py:103-112 | when every slice is canonical for its field, `clean_fields` raises nothing and each field holds a value that writes its slice back |
| ModelProperties.RenderedSlices | fixedwidthtext/models.py:114-118 | a record whose every field writes its slice of a `total_size` line is written as that line |
| ModelProperties.ReadWriteLine | fixedwidthtext/models.py:73-118 | a `total_size` line whose every slice the field cleans and writes back unchanged is read without error, and `to_string` of the record gives the line back |
| ModelProperties.ExactKept | fixedwidthtext/fields.py:143-216 | `to_python` keeps a value its field writes exactly |
| ModelProperties.KeywordsKept | fixedwidthtext/models.py:73-78 | a record built from writable keyword values raises nothing and keeps every value |
| ModelProperties.DictsEntries | fixedwidthtext/models.py:120-124 | `get_dicts` succeeds exactly when every field's entry can be built, and lists those entries in schema order |
| ModelProperties.DictsNamed | fixedwidthtext/fields.py:55-60 | each listed entry carries its field's name and verbose name |
| ModelProperties.DictsOf | fixedwidthtext/models.py:120-124 | `get_dicts` lists the fields' entries when each can be built |
| ModelProperties.RenderedAgree | fixedwidthtext/models.py:114-118 | `to_string` depends only on the fields' attributes |
| ModelProperties.DictsAgree | fixedwidthtext/models.py:120-124 | `get_dicts` depends only on the fields' attributes |
| FieldExamples.IntegerWritten | tests/test_fields.py:99-102 | an integer field 10 wide writes 40 as `0000000040` |
| FieldExamples.IntegerRead | tests/test_fields.py:104-106 | an integer field reads `0000012345` as 12345 |
| FieldExamples.InvalidText | tests/test_fields.py:89-110 | integer and date fields reject `avc` with their invalid error |
| FieldExamples.DecimalInvalid | tests/test_fields.py:127-129 | a Decimal field with 2 places rejects `avc`, reporting `a.vc` |
| FieldExamples.DateWritten | tests/test_fields.py:81-83 | a date field writes 4 June 2016 as `20160604` |
| FieldExamples.DateRead | tests/test_fields.py:85-87 | a date field reads `20160604` as 4 June 2016 |
| FieldExamples.DecimalExample | tests/test_fields.py:118-125 | a Decimal field 10 wide with 2 places writes 123.45 as `0000012345` and reads it back |
| FieldExamples.StringExample | tests/test_fields.py:60-71 | a string field 50 wide pads `Nome Sobrenome` with blanks, reads it back stripped, and rejects a date |
| ModelExamples.SchemaExample | tests/test_models.py:28-32 | the example record type's fields come out as first_name, last_name, age |
| ModelExamples.NamedBody | tests/test_models.py:6-9 | naming the example body names each field after its attribute and leaves `__module__` alone |
| ModelExamples.FieldsOfNamed | tests/test_models.py:6-9 | the example body's fields, in body order, are age, first_name, last_name |
| ModelExamples.SortExample | tests/test_models.py:28-32 | three fields come out in the order of their counters |
| ModelExamples.PersonWritable | tests/test_models.py:6-9 | a person whose names fit in 10 characters and whose age fits in 3 makes a writable record of the example type |
| ModelExamples.TotalSizeExample | tests/test_models.py:24-26 | its total size is 23 |
| ModelExamples.PrepareExample | tests/test_models.py:6-9 | preparing the example body yields that schema with total size 23 |
| ModelExamples.WriteExample | tests/test_models.py:62-65 | Joao Pereira, 24 is written as `Joao      Pereira   024` |
| ModelExamples.JoaoPieces | tests/test_models.py:62-65 | Joao's record renders as `Joao      `, `Pereira   ` and `024` |
| ModelExamples.PedroWritten | tests/test_models.py:39-44 | Pedro's record is written as the line the test reads |
| ModelExamples.PedroRead | tests/test_models.py:39-44 | `Pedro     Almeida   014` is 23 long and reads without error as Pedro, Almeida, 14 |
| ModelExamples.PedroRewritten | tests/test_models.py:39-44 | writing the record read from `Pedro     Almeida   014` gives that line again |
| ModelExamples.ReadExample | tests/test_models.py:39-44 | a record built from that line passes and holds Pedro, Almeida, 14 |
| ModelExamples.DictsExample | tests/test_models.py:46-52 | `get_dicts` of Joao's record lists the three expected entries |
| ModelExamples.KeywordExample | tests/test_models.py:34-65 | a record built from Joao's keywords passes, holds them, writes the expected line and lists the expected entries |
| Findings.NoPlacesAsWritten | fixedwidthtext/fields.py:209-213 | as written, a field without decimal places reads a digit string s as s * 10^-len(s) |
| Findings.FractionOnly | fixedwidthtext/fields.py:209-213 | `Decimal('.' + digits)` is the digits' value times 10^-len(digits) |
| Findings.NoPlacesFive | fixedwidthtext/fields.py:209-213 | `5` with no places is 0.5 as written and 5 as intended, which are different numbers |
| Findings.DecimalPassThroughAsWritten | fixedwidthtext/fields.py:205-213 | as written, `to_python` of a Decimal raises TypeError; as intended the Decimal is kept |
| Findings.RepeatedCleanAsWritten | fixedwidthtext/fields.py:205-213 | as written, a non-None value `to_python` produced cannot be converted again |
| Findings.WholeDecimalTextAsWritten | fixedwidthtext/fields.py:199-203 | as written, a whole Decimal n is written as the integer n whatever the places |
| Findings.DecimalPlacesIgnoredAsWritten | fixedwidthtext/fields.py:199-213 | as written, a whole Decimal c > 0 in a field with places is read back as c * 10^-places, a different number |
| Findings.DecimalTextKeepsNumber | fixedwidthtext/fields.py:199-213 | as intended, a Decimal with no more fraction digits than the places is written and read back as the same number |
| CleanProperties.ValidateAsWrittenRaises | fixedwidthtext/fields.py:93-95 | as written, any field with choices raises NameError; as intended, a value outside the choices is an invalid choice and a value inside passes |

## Left out

- The `ModelBase` metaclass (models.py:45-69) is not modelled. A record-type body is handed to `Options.Prepare` as a sequence of attributes. Copying the attributes onto the class, the `NewBase` special case and popping `__module__` are left out.
- `field.name = name` mutates a shared `Field` object. The model gives renamed copies instead. So one field object declared under two names, or shared by two record types, is not modelled.
- Python's `getattr` falls back to the class attribute, the field itself, when an instance lacks the attribute. The model reports AttributeError instead. Populating always sets every field first, so records never reach that case.
- Message texts, the `error_messages` merge along the class hierarchy, and the `str`/`repr` formatting of errors are left out. Errors are structured values. The errors dict of `clean_fields` is a list of (name, error) pairs in schema order. Its names are distinct, as the dict's keys are.
- Fields.RunValidators: a ValidationError whose `code` is among the field's error messages goes through lines that use the undefined names `mesage` and `error` (fields.py:115-118). That path would raise NameError. The model treats every failing validator as its list of messages.
- A validator that raises something other than a ValidationError raises one of the exception kinds the model knows (TypeError, ValueError, AttributeError, NameError, OverflowError). Other exception classes are not distinguished.
- `validate` first checks `size is None` (fields.py:90-92). This cannot happen after construction, which rejects a missing size, so the check is left out.
- `Options.verbose_name` is never set or used, so it is left out.
- The `exceptions` module is not part of this model. ValidationError is the `Error` datatype.
- `unicode`: the string field treats all strings alike, as Python 3 would.
- Floats, booleans and other Python objects are not among the values. `int()` of a float, for instance, is left out.
- `int()` accepting underscores and non-ASCII digits is left out. `strip()` removes ASCII whitespace only.
- `strftime('%Y')` for years below 1000 is platform-dependent. The model pads the year to four digits.
- Decimal special values (NaN, Infinity) and the sign of a negative zero are left out.
- Models.LineManager.Init: a `string` keyword that is not a str raises TypeError in the model. Python would accept any object with a length and slices.
- A callable default may read the clock or other outside state. It receives that state as a parameter.
- `Options(attrs)` runs `_prepare` inside its constructor. The model calls `Models.Options.Prepare` on a freshly constructed `Options` instead, which leaves the same state.
- Models.LineManager.CleanFields: reads and writes each attribute under the field's schema key, where models.py:106-110 uses `field.name`. For a schema `Models.Options.Prepare` produced the two are the same (`NamesMatch`, part of `Options.Valid`). Cleaning under a schema whose keys differ from the field names is not modelled.
- Models.Options.Prepare requires distinct attribute names. The body of a Python class is a dict, so its names are distinct already.

## Findings

| source | as written | input that shows it | evidently intended | confidence | as-written member | corrected member |
|---|---|---|---|---|---|---|
| fixedwidthtext/fields.py:209-211 | with `decimal_places=0`, `value[:-0]` is empty and `value[-0:]` is the whole slice, so the point goes in front of every digit | `DecimalField(size=1, decimal_places=0).to_python('5')` gives Decimal('0.5') | no places means no fraction: Decimal('5') | high, not executed | Findings.NoPlacesFive | FieldProperties.DecimalCanonical |
| fixedwidthtext/fields.py:205-213 | `to_python` slices any non-None value, so a Decimal raises TypeError; a record built from a Decimal keyword then fails `clean_fields`, and `get_dicts` raises | `DecimalField(size=10, decimal_places=2).to_python(Decimal('1.23'))` | a Decimal passes through, as a date does in `DateField.to_python` | high, not executed | Findings.DecimalPassThroughAsWritten | CleanProperties.ToPythonIdempotent |
| fixedwidthtext/fields.py:199-203 | `value_to_string` drops the point of `str(value)` and ignores `decimal_places`, so the written digits are not in 10^-places units | Decimal('5') in a field of size 4 with 2 places is written `0005`, which `to_python` reads as 0.05 | write the value in 10^-places units: `0500`, read back as 5.00 | high, not executed | Findings.DecimalPlacesIgnoredAsWritten | Findings.DecimalTextKeepsNumber |
| fixedwidthtext/fields.py:94 | `value not in choices` names an undefined global instead of `self.choices`, so any field with choices raises NameError | a field with `choices=['a']` cleaning `'a'` | a value outside the field's choices is an invalid choice, and a value inside passes | high, not executed | CleanProperties.ValidateAsWrittenRaises | CleanProperties.CleanRespectsChoices |
