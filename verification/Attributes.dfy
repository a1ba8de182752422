/** Attribute schemas and the two checks of a step's bound values against them: the
    accumulating one of the server and the fail-fast one of the hub. */
module Attributes {
  import opened Prelude

  /** Why a pipeline is rejected. */
  datatype Reason =
    | UnknownProcessor
    | UnknownPort
    | UnknownAttribute
    | DatatypeMismatch
    | AmbiguousInput
    | MissingRequiredPort
    | MissingRequiredAttribute
    | InvalidAttribute
    | DuplicateInitialInput
    | DuplicateStepRef
    | InvalidFanIn
    | UnverifiedMatchGraph

  /** A value as it arrives in a request body. */
  datatype Value = Null | Bool(b: bool) | Int(i: int) | Float(r: real) | Text(s: string) | Dict | List

  datatype AttributeType = IntType | FloatType | BoolType | StrType | EnumType | DatatypeRef | ObjectType

  datatype AttributeDecl = AttributeDecl(
    name: string, typ: AttributeType, required: bool, enum: seq<string>,
    min: Option<real>, max: Option<real>)
  {
    /** What the constructor refuses: bounds on an attribute that is not numeric. */
    predicate Valid() {
      !(typ.IntType? || typ.FloatType?) ==> min.None? && max.None?
    }
  }

  type Attribute = a: AttributeDecl | a.Valid()
    witness AttributeDecl("", BoolType, false, [], None, None)

  predicate TypeOk(attr: Attribute, v: Value, known: set<string>) {
    match attr.typ
    case BoolType => v.Bool?
    case IntType => v.Int?
    case FloatType => v.Int? || v.Float?
    case StrType => v.Text?
    case EnumType => v.Text? && v.s in attr.enum
    case DatatypeRef => v.Text? && v.s in known
    case ObjectType => v.Dict?
  }

  /** Python's numeric reading of a value; booleans are integers there. */
  function Numeric(v: Value): Option<real> {
    match v
    case Int(i) => Some(i as real)
    case Float(r) => Some(r)
    case Bool(b) => Some(if b then 1.0 else 0.0)
    case _ => None
  }

  predicate BelowMin(attr: Attribute, v: Value) {
    attr.min.Some? && Numeric(v).Some? && Numeric(v).value < attr.min.value
  }

  predicate AboveMax(attr: Attribute, v: Value) {
    attr.max.Some? && Numeric(v).Some? && Numeric(v).value > attr.max.value
  }

  // ----- what a well-typed binding is -----

  /** `v` may be bound to `attr`, told by the kind of value: an integer is also a float, numbers keep to the bounds,
      a string may name an enumeration value or a datatype, and neither null nor a list fits anywhere. */
  ghost predicate Fits(attr: Attribute, v: Value, known: set<string>) {
    match v
    case Null => false
    case Bool(_) => attr.typ == BoolType
    case Int(i) => (attr.typ == IntType || attr.typ == FloatType) && InRange(attr, i as real)
    case Float(r) => attr.typ == FloatType && InRange(attr, r)
    case Text(t) =>
      attr.typ == StrType || (attr.typ == EnumType && t in attr.enum) || (attr.typ == DatatypeRef && t in known)
    case Dict => attr.typ == ObjectType
    case List => false
  }

  ghost predicate InRange(attr: Attribute, r: real) {
    !(attr.min.Some? && r < attr.min.value) && !(attr.max.Some? && attr.max.value < r)
  }

  /** `attr` is bound to a value that fits, or left out although nothing requires it. */
  ghost predicate Bound(attr: Attribute, values: map<string, Value>, known: set<string>) {
    if attr.name in values then Fits(attr, values[attr.name], known) else !attr.required
  }

  function Names(attributes: seq<Attribute>): set<string> {
    set a | a in attributes :: a.name
  }

  ghost predicate AllBound(attributes: seq<Attribute>, n: nat, values: map<string, Value>, known: set<string>)
    requires n <= |attributes|
  {
    forall k :: 0 <= k < n ==> Bound(attributes[k], values, known)
  }

  ghost predicate AttributesTyped(attributes: seq<Attribute>, values: map<string, Value>, known: set<string>) {
    && values.Keys <= Names(attributes)
    && AllBound(attributes, |attributes|, values, known)
  }

  // ----- the accumulating check -----

  function AttributeFaults(attr: Attribute, values: map<string, Value>, known: set<string>): (r: seq<Reason>)
    ensures r == [] <==> Bound(attr, values, known)
  {
    if attr.name !in values then
      if attr.required then [MissingRequiredAttribute] else []
    else
      var v := values[attr.name];
      if v.Null? || !TypeOk(attr, v, known) then [InvalidAttribute]
      else (if BelowMin(attr, v) then [InvalidAttribute] else [])
           + (if AboveMax(attr, v) then [InvalidAttribute] else [])
  }

  /** Which fault it is: a required attribute that is missing, or a value that does not fit. */
  ghost predicate Faulty(attr: Attribute, values: map<string, Value>, known: set<string>, r: Reason) {
    || (r == MissingRequiredAttribute && attr.required && attr.name !in values)
    || (r == InvalidAttribute && attr.name in values && !Fits(attr, values[attr.name], known))
  }

  lemma FaultReasons(attr: Attribute, values: map<string, Value>, known: set<string>)
    ensures forall r :: r in AttributeFaults(attr, values, known) <==> Faulty(attr, values, known, r)
  {
    if attr.name in values && !Fits(attr, values[attr.name], known) {
      assert AttributeFaults(attr, values, known)[0] == InvalidAttribute;
    }
  }

  /** The faults of the first `n` declarations. */
  function DeclaredFaults(attributes: seq<Attribute>, n: nat, values: map<string, Value>, known: set<string>)
    : seq<Reason>
    requires n <= |attributes|
  {
    if n == 0 then []
    else DeclaredFaults(attributes, n - 1, values, known) + AttributeFaults(attributes[n - 1], values, known)
  }

  function Repeat(r: Reason, n: nat): (s: seq<Reason>)
    ensures |s| == n
  {
    if n == 0 then [] else Repeat(r, n - 1) + [r]
  }

  function AttributeErrors(attributes: seq<Attribute>, values: map<string, Value>, known: set<string>): seq<Reason> {
    Repeat(UnknownAttribute, |values.Keys - Names(attributes)|)
    + DeclaredFaults(attributes, |attributes|, values, known)
  }

  lemma {:induction false} DeclaredFaultsSound(attributes: seq<Attribute>, n: nat, values: map<string, Value>,
                                               known: set<string>)
    requires n <= |attributes|
    ensures DeclaredFaults(attributes, n, values, known) == [] <==> AllBound(attributes, n, values, known)
  {
    hide Bound, AttributeFaults;
    if n > 0 {
      DeclaredFaultsSound(attributes, n - 1, values, known);
      assert AllBound(attributes, n, values, known)
        <==> AllBound(attributes, n - 1, values, known) && Bound(attributes[n - 1], values, known);
    }
  }

  lemma AttributeErrorsSound(attributes: seq<Attribute>, values: map<string, Value>, known: set<string>)
    ensures AttributeErrors(attributes, values, known) == [] <==> AttributesTyped(attributes, values, known)
  {
    var unknown := values.Keys - Names(attributes);
    DeclaredFaultsSound(attributes, |attributes|, values, known);
    SubsetByDifference(values.Keys, Names(attributes));
  }

  lemma {:induction false} DeclaredReasons(attributes: seq<Attribute>, n: nat, values: map<string, Value>,
                                           known: set<string>, r: Reason)
    requires n <= |attributes|
    ensures r in DeclaredFaults(attributes, n, values, known) <==>
              exists k :: 0 <= k < n && Faulty(attributes[k], values, known, r)
  {
    hide AttributeFaults, Faulty;
    if n > 0 {
      FaultReasons(attributes[n - 1], values, known);
      DeclaredReasons(attributes, n - 1, values, known, r);
    }
  }

  lemma {:induction false} RepeatedReason(r: Reason, n: nat)
    ensures forall x :: x in Repeat(r, n) <==> x == r && n > 0
  {
    if n > 0 { RepeatedReason(r, n - 1); }
  }

  /** The reasons reported for a step's attributes are exactly those that apply. */
  lemma AttributeReasons(attributes: seq<Attribute>, values: map<string, Value>, known: set<string>, r: Reason)
    ensures r in AttributeErrors(attributes, values, known) <==>
              || (r == UnknownAttribute && exists name :: name in values && forall a :: a in attributes ==> a.name != name)
              || (exists a :: a in attributes && Faulty(a, values, known, r))
  {
    var unknown := values.Keys - Names(attributes);
    assert forall name :: name in unknown <==> name in values && forall a :: a in attributes ==> a.name != name;
    RepeatedReason(UnknownAttribute, |unknown|);
    DeclaredReasons(attributes, |attributes|, values, known, r);
    TwoOrMore(unknown);
    hide Faulty, DeclaredFaults, Repeat, Names;
  }

  /** The errors of one declared attribute. */
  method CheckAttribute(attr: Attribute, values: map<string, Value>, known: set<string>) returns (errors: seq<Reason>)
    ensures errors == AttributeFaults(attr, values, known)
    ensures errors == [] <==> Bound(attr, values, known)
  {
    hide TypeOk, BelowMin, AboveMax;
    if attr.name !in values {
      return if attr.required then [MissingRequiredAttribute] else [];
    }
    var value := values[attr.name];
    if value.Null? {
      return [InvalidAttribute];
    }
    if !TypeOk(attr, value, known) {
      return [InvalidAttribute];
    }
    errors := [];
    if BelowMin(attr, value) {
      errors := [InvalidAttribute];
    }
    if AboveMax(attr, value) {
      errors := errors + [InvalidAttribute];
    }
  }

  /** One error for each name in `unknown`. */
  method CheckUnknown(unknown: set<string>) returns (errors: seq<Reason>)
    ensures errors == Repeat(UnknownAttribute, |unknown|)
  {
    errors := [];
    var left := unknown;
    while left != {}
      invariant left <= unknown && errors == Repeat(UnknownAttribute, |unknown| - |left|)
      decreases |left|
    {
      var name :| name in left;
      left := left - {name};
      errors := errors + [UnknownAttribute];
    }
  }

  /** The errors of the declared attributes, in order. */
  method CheckDeclared(attributes: seq<Attribute>, values: map<string, Value>, known: set<string>)
    returns (errors: seq<Reason>)
    ensures errors == DeclaredFaults(attributes, |attributes|, values, known)
  {
    hide Bound, AttributeFaults;
    errors := [];
    for i := 0 to |attributes|
      invariant errors == DeclaredFaults(attributes, i, values, known)
    {
      var found := CheckAttribute(attributes[i], values, known);
      errors := errors + found;
    }
  }

  method ValidateAttributes(attributes: seq<Attribute>, values: map<string, Value>, known: set<string>)
    returns (errors: seq<Reason>)
    ensures errors == AttributeErrors(attributes, values, known)
    ensures errors == [] <==> AttributesTyped(attributes, values, known)
  {
    hide AttributesTyped, DeclaredFaults, Repeat;
    errors := CheckUnknown(values.Keys - Names(attributes));
    var declared := CheckDeclared(attributes, values, known);
    errors := errors + declared;
    AttributeErrorsSound(attributes, values, known);
  }

  // ----- the fail-fast check -----

  /** The hub's check: `ok` is false where the source raises. */
  method ValidateStepAttributes(attributes: seq<Attribute>, values: map<string, Value>, known: set<string>)
    returns (ok: bool)
    ensures ok <==> AttributesTyped(attributes, values, known)
  {
    var unknown := values.Keys - Names(attributes);
    SubsetByDifference(values.Keys, Names(attributes));
    if unknown != {} {
      return false;
    }
    for i := 0 to |attributes|
      invariant AllBound(attributes, i, values, known)
    {
      var attr := attributes[i];
      if attr.name !in values {
        if attr.required {
          assert !Bound(attributes[i], values, known);
          return false;
        }
      } else {
        var value := values[attr.name];
        if (value.Null? || !TypeOk(attr, value, known)) || BelowMin(attr, value) || AboveMax(attr, value) {
          assert !Bound(attributes[i], values, known);
          return false;
        }
      }
    }
    return true;
  }
}
