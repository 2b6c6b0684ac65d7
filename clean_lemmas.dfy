/**
 * What `clean` and the helpers around it promise: conversion is
 * idempotent, a cleaned value lies among the choices, every validator is
 * heard, and defaults are resolved afresh on every call.
 */
module CleanProperties {
  import opened Wrappers
  import opened Text
  import opened Values
  import opened Fields
  import opened TextProperties

  // -------------------------------------------------------------- to_python

  /** Converting a value `to_python` produced gives the same result again. */
  lemma ToPythonIdempotent(kind: Kind, raw: Value)
    requires ToPython(kind, raw).Success?
    ensures ToPython(kind, ToPython(kind, raw).value) == ToPython(kind, raw)
  {
    if kind.StringKind? {
      StripIdempotent(raw.s);
    }
  }

  // ----------------------------------------------------------- validators

  /** The messages of two runs of validators, one after the other, are concatenated in order. */
  lemma {:induction false} ValidatorMessagesAppend(a: seq<Value -> Check>, b: seq<Value -> Check>, v: Value)
    ensures ValidatorMessages(a + b, v) == ValidatorMessages(a, v) + ValidatorMessages(b, v)
    decreases |b|
  {
    if |b| == 0 {
      assert a + b == a;
    } else {
      var init, x := b[..|b| - 1], b[|b| - 1];
      assert b == init + [x];
      assert a + b == (a + init) + [x];
      calc {
        ValidatorMessages(a + b, v);
        { ValidatorMessagesSnoc(a + init, x, v); }
        ValidatorMessages(a + init, v) + Messages(x(v));
        { ValidatorMessagesAppend(a, init, v); }
        (ValidatorMessages(a, v) + ValidatorMessages(init, v)) + Messages(x(v));
        ValidatorMessages(a, v) + (ValidatorMessages(init, v) + Messages(x(v)));
        { ValidatorMessagesSnoc(init, x, v); }
        ValidatorMessages(a, v) + ValidatorMessages(b, v);
      }
    }
  }

  /** Adding one validator at the end adds its messages at the end. */
  lemma ValidatorMessagesSnoc(vs: seq<Value -> Check>, x: Value -> Check, v: Value)
    ensures ValidatorMessages(vs + [x], v) == ValidatorMessages(vs, v) + Messages(x(v))
  {
    var s := vs + [x];
    assert s[..|s| - 1] == vs && s[|s| - 1] == x;
  }

  /**
   * Every message of every validator is reported, whether or not an
   * earlier validator raised.
   */
  lemma {:induction false} ValidatorMessagesComplete(vs: seq<Value -> Check>, v: Value, i: nat, m: string)
    requires i < |vs| && m in Messages(vs[i](v))
    ensures m in ValidatorMessages(vs, v)
  {
    if i < |vs| - 1 {
      ValidatorMessagesComplete(vs[..|vs| - 1], v, i, m);
    }
  }

  /** Every reported message is one a validator raised. */
  lemma {:induction false} ValidatorMessagesSound(vs: seq<Value -> Check>, v: Value, m: string)
    requires m in ValidatorMessages(vs, v)
    ensures exists i :: 0 <= i < |vs| && m in Messages(vs[i](v))
  {
    var init := vs[..|vs| - 1];
    if m in ValidatorMessages(init, v) {
      ValidatorMessagesSound(init, v, m);
      var i :| 0 <= i < |init| && m in Messages(init[i](v));
      assert init[i] == vs[i];
    } else {
      assert m in Messages(vs[|vs| - 1](v));
    }
  }

  /** No message is collected exactly when no validator raised one. */
  lemma {:induction false} ValidatorMessagesEmpty(vs: seq<Value -> Check>, v: Value)
    ensures |ValidatorMessages(vs, v)| == 0 <==> forall i :: 0 <= i < |vs| ==> |Messages(vs[i](v))| == 0
  {
    if |vs| > 0 {
      var init := vs[..|vs| - 1];
      ValidatorMessagesEmpty(init, v);
      assert forall i :: 0 <= i < |init| ==> init[i] == vs[i];
    }
  }

  /**
   * `run_validators` lets an exception other than ValidationError through
   * exactly when some validator raises one, and it is the first such one.
   */
  lemma {:induction false} FirstRaiseFound(vs: seq<Value -> Check>, v: Value)
    ensures FirstRaise(vs, v).None? <==> forall i :: 0 <= i < |vs| ==> !vs[i](v).Raise?
    ensures FirstRaise(vs, v).Some? ==>
              exists j :: 0 <= j < |vs| && vs[j](v) == Raise(FirstRaise(vs, v).value)
                          && forall i :: 0 <= i < j ==> !vs[i](v).Raise?
  {
    if |vs| > 0 {
      var n := |vs| - 1;
      var init := vs[..n];
      FirstRaiseFound(init, v);
      assert forall i :: 0 <= i < n ==> init[i] == vs[i];
      match FirstRaise(init, v)
      case Some(k) =>
        var j :| 0 <= j < n && init[j](v) == Raise(k) && forall i :: 0 <= i < j ==> !init[i](v).Raise?;
        assert vs[j](v) == Raise(k);
      case None =>
        if vs[n](v).Raise? {
          assert vs[n](v) == Raise(FirstRaise(vs, v).value);
        }
    }
  }

  // ----------------------------------------------------------------- clean

  /**
   * Once every earlier stage passed, `clean` raises the first exception
   * other than ValidationError a validator raises; without one, it fails
   * exactly when some validator raised a message, and then reports all of
   * them.
   */
  lemma CleanValidators(f: Field, raw: Value, v: Value)
    requires ToPython(f.kind, raw) == Success(v) && Validate(f, v) == Pass
    ensures FirstRaise(f.validators, v).Some? ==>
              Cleaned(f, raw) == Failure(Runtime(FirstRaise(f.validators, v).value))
    ensures FirstRaise(f.validators, v).None? ==>
              (Cleaned(f, raw).Failure? <==> exists i :: 0 <= i < |f.validators| && |Messages(f.validators[i](v))| > 0)
    ensures FirstRaise(f.validators, v).None? && Cleaned(f, raw).Failure? ==>
              Cleaned(f, raw).error == InvalidValidators(ValidatorMessages(f.validators, v))
  {
    ValidatorMessagesEmpty(f.validators, v);
  }

  /** A value `clean` returns is `==` to one of the field's choices, when it has any. */
  lemma CleanRespectsChoices(f: Field, raw: Value)
    requires Cleaned(f, raw).Success? && |f.choices| > 0
    ensures exists i :: 0 <= i < |f.choices| && PyEquals(Cleaned(f, raw).value, f.choices[i])
  {
  }

  /** Every choice passes `validate`: `==` holds between a value and itself. */
  lemma ChoicePasses(f: Field, v: Value)
    requires v in f.choices
    ensures Validate(f, v) == Pass
  {
    var i :| 0 <= i < |f.choices| && f.choices[i] == v;
    match v
    case Int(_) =>
    case Dec(c, e) =>
      assert ScaleUp(c, 0) == c;
      assert PyEquals(v, f.choices[i]);
    case _ =>
  }

  /**
   * `in` compares numbers: the Decimal 1.00 is among the choices
   * `[Decimal('1')]`, and the int 14 among `[Decimal('14')]`.
   */
  lemma ChoicesCompareNumbers(f: Field, g: Field)
    requires f.kind == DecimalKind(Some(2)) && f.choices == [Dec(1, 0)] && |f.validators| == 0
    requires g.kind == IntegerKind && g.choices == [Dec(14, 0)] && |g.validators| == 0
    ensures Cleaned(f, Dec(100, -2)) == Success(Dec(100, -2))
    ensures Cleaned(g, Int(14)) == Success(Int(14))
  {
    assert ScaleUp(1, 2) == 100;
    assert PyEquals(Dec(100, -2), f.choices[0]);
    assert ScaleUp(14, 0) == 14;
    assert PyEquals(Int(14), g.choices[0]);
  }

  /** Cleaning a cleaned value changes nothing. */
  lemma CleanIdempotent(f: Field, raw: Value)
    requires Cleaned(f, raw).Success?
    ensures Cleaned(f, Cleaned(f, raw).value) == Cleaned(f, raw)
  {
    ToPythonIdempotent(f.kind, raw);
  }

  /**
   * `clean` of a value outside non-empty choices raises an invalid choice
   * as intended, where the code as written raises NameError.
   */
  lemma ValidateAsWrittenRaises(f: Field, v: Value)
    requires |f.choices| > 0
    ensures ValidateAsWritten(f, v) == Fail(Runtime(NameError))
    ensures !InChoices(v, f.choices) ==> Validate(f, v) == Fail(InvalidChoice(v))
    ensures InChoices(v, f.choices) ==> Validate(f, v) == Pass
  {
  }

  // --------------------------------------------------------------- defaults

  /** A field without a default renders "", which a string field pads to blanks. */
  lemma BlankDefault(f: Field, clock: nat)
    requires f.kind == StringKind && !HasDefault(f)
    ensures ValueToString(f, Absent(clock)) == Success(Repeat(' ', f.size))
  {
    assert "" + Repeat(' ', f.size) == Repeat(' ', f.size);
  }

  /**
   * `get_default` returns a string for every non-callable default, so an
   * integer field cannot render its own integer default: `'%0Nd' % '7'`
   * raises TypeError.
   */
  lemma IntegerDefaultUnrendered(f: Field, clock: nat, i: int)
    requires f.kind == IntegerKind && f.default == Literal(Int(i))
    ensures GetDefault(f, clock) == Str(IntToString(i))
    ensures ValueToString(f, Absent(clock)) == Failure(Runtime(TypeError))
  {
  }

  /**
   * Without a default `get_default` is "", a callable default is called
   * and a literal one turned into text. So a literal default gives the same
   * text at every moment, while a callable default is called again each
   * time and follows the outside state.
   */
  lemma DefaultResolution(f: Field, c1: nat, c2: nat)
    ensures f.default == Literal(Null) ==> GetDefault(f, c1) == Str("")
    ensures f.default.Callable? ==> GetDefault(f, c1) == f.default.produce(c1)
    ensures f.default.Literal? && !f.default.value.Null? ==> GetDefault(f, c1) == Str(Show(f.default.value))
    ensures f.default.Literal? ==> GetDefault(f, c1) == GetDefault(f, c2) && GetDefault(f, c1).Str?
    ensures f.default.Callable? && f.default.produce(c1) != f.default.produce(c2) ==>
              GetDefault(f, c1) != GetDefault(f, c2)
  {
  }
}
