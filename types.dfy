/** Values shared by the config module, the page factory and the builders:
    C#'s `object?`, the runtime types the builders test for, and the
    descriptor the property catalog keeps for each configuration property. */
module Types {

  datatype Option<+T> = None | Some(value: T) {
    /** The `??` operator of C#. */
    function GetOr(default: T): T {
      if Some? then value else default
    }
  }

  /** Index of the first element of `s` that satisfies `p`: what LINQ's
      `FirstOrDefault` finds, and the entry a dictionary keyed by a unique
      field returns. */
  function FirstIndex<T>(s: seq<T>, p: T -> bool): (r: Option<nat>)
    ensures r.Some? ==> r.value < |s| && p(s[r.value])
    ensures r.Some? ==> forall j :: 0 <= j < r.value ==> !p(s[j])
    ensures r.None? <==> forall j :: 0 <= j < |s| ==> !p(s[j])
  {
    if s == [] then None
    else if p(s[0]) then Some(0)
    else match FirstIndex(s[1..], p)
      case None => None
      case Some(k) => Some(k + 1)
  }

  /** Looking past one more element only matters when nothing before it matched. */
  lemma {:induction false} FirstIndexSnoc<T>(s: seq<T>, x: T, p: T -> bool)
    ensures FirstIndex(s + [x], p) ==
              if FirstIndex(s, p).Some? then FirstIndex(s, p) else if p(x) then Some(|s|) else None
  {
    if s == [] {
      assert [x][1..] == [];
    } else {
      assert (s + [x])[0] == s[0];
      assert (s + [x])[1..] == s[1..] + [x];
      if !p(s[0]) {
        FirstIndexSnoc(s[1..], x, p);
      }
    }
  }

  /** The runtime types the model tells apart. */
  datatype ClrType =
    | SByte | Byte | Int16 | UInt16 | Int32 | UInt32 | Int64 | UInt64
    | Single | Double | Decimal
    | Boolean | Char | String
    | RuntimeType           // System.Type objects, such as typeof(int)
    | Named(name: string)   // every other class, struct or enum

  predicate IsNumericType(t: ClrType) {
    t.SByte? || t.Byte? || t.Int16? || t.UInt16? || t.Int32? || t.UInt32? ||
    t.Int64? || t.UInt64? || t.Single? || t.Double? || t.Decimal?
  }

  /** A C# `object?`: null, a boxed number, bool or string, or any other
      object known only by its runtime type. */
  datatype Value =
    | Null
    | Num(ty: ClrType, x: real)
    | Bool(b: bool)
    | Str(s: string)
    | Obj(ty: ClrType)

  /** A boxed number has a numeric type, and an `Obj` is none of the
      primitives that have their own constructor. */
  predicate WellFormed(v: Value) {
    match v
    case Num(ty, _) => IsNumericType(ty)
    case Obj(ty) => !IsNumericType(ty) && !ty.Boolean? && !ty.String?
    case _ => true
  }

  /** `value.GetType()` */
  function RuntimeTypeOf(v: Value): ClrType
    requires v != Null
  {
    match v
    case Num(ty, _) => ty
    case Bool(_) => Boolean
    case Str(_) => String
    case Obj(ty) => ty
  }

  /** The object `typeof(t)`: whatever `t` is, its own runtime type is System.Type. */
  function TypeObject(t: ClrType): Value {
    Obj(RuntimeType)
  }

  /** NumericConfigAttribute: the three values a numeric editor is bounded by. */
  datatype NumericConfig = NumericConfig(minimum: Value, maximum: Value, increment: Value)

  /** DropdownConfigAttribute; its contents are read only by the dropdown builder. */
  datatype DropdownConfig = DropdownConfig(options: seq<Value>)

  /** One entry of ConfigProperties: the property and its ConfigAttribute. */
  datatype ConfigProperty = ConfigProperty(
    name: string,
    propertyType: ClrType,
    category: string,
    group: string,
    header: string,
    description: string,
    numeric: Option<NumericConfig>,
    dropdown: Option<DropdownConfig>)

  /** Position of the property called `name` in a catalog. */
  function FindProperty(catalog: seq<ConfigProperty>, name: string): Option<nat> {
    FirstIndex(catalog, (p: ConfigProperty) => p.name == name)
  }

  /** No two catalog entries share a name, as ConfigProperties is a dictionary. */
  ghost predicate UniqueNames(catalog: seq<ConfigProperty>) {
    forall i, j :: 0 <= i < j < |catalog| ==> catalog[i].name != catalog[j].name
  }

  ghost predicate Cataloged(catalog: seq<ConfigProperty>, name: string) {
    exists i :: 0 <= i < |catalog| && catalog[i].name == name
  }

  /** IConfigModule.Translate's default: the key itself. */
  function Translate(input: string): string {
    input
  }
}
