/** NumericControlBuilder: which values it claims, and the editor it builds
    for a property (a dropdown when the property asks for one, otherwise a
    numeric up-down bounded by the property's numeric attribute). */
module NumericControlBuilder {
  import opened Types
  import opened ConfigModules
  import ConfigFactory

  /** decimal.MaxValue; decimal.MinValue is its negation. */
  const DecimalMax: real := 79228162514264337593543950335.0

  datatype ConversionError = OverflowException | InvalidCastException | FormatException

  /** The outcome of Convert.ToDecimal: a value or the exception it throws. */
  datatype Conversion = Converted(value: real) | Threw(error: ConversionError)

  /** IsValid(value): the value is a boxed sbyte, byte, short, ushort, int,
      uint, long, ulong, float, double or decimal; null is none of these. */
  predicate IsValid(value: Value) {
    value != Null &&
    var t := RuntimeTypeOf(value);
    t == SByte || t == Byte || t == Int16 || t == UInt16 || t == Int32 || t == UInt32 ||
    t == Int64 || t == UInt64 || t == Single || t == Double || t == Decimal
  }

  /** The builder claims exactly the boxed numbers: not null, bools,
      strings, characters, Type objects or any other object. */
  lemma IsValidIffBoxedNumber(value: Value)
    requires WellFormed(value)
    ensures IsValid(value) <==> value.Num?
    ensures value.Num? ==> IsValid(value) == IsNumericType(value.ty)
  {
  }

  /** Convert.ToDecimal(object?): null converts to 0, a boolean to 1 or 0,
      a number to itself unless it is a float or double outside the decimal
      range, a string as the current culture parses it (`parse`, None when it
      is not a number); characters and other objects cannot be converted. */
  function ToDecimal(value: Value, parse: string -> Option<real>): Conversion {
    match value
    case Null => Converted(0.0)
    case Bool(b) => Converted(if b then 1.0 else 0.0)
    case Num(ty, x) =>
      if (ty == Single || ty == Double) && (x > DecimalMax || x < -DecimalMax) then Threw(OverflowException)
      else Converted(x)
    case Str(s) =>
      (match parse(s)
       case None => Threw(FormatException)
       case Some(x) => if x > DecimalMax || x < -DecimalMax then Threw(OverflowException) else Converted(x))
    case Obj(_) => Threw(InvalidCastException)
  }

  /** TryConvertToDecimal: true with the converted value, or false with 0
      when the conversion throws; the exception never escapes. */
  function TryConvertToDecimal(value: Value, parse: string -> Option<real>): (r: (bool, real))
    ensures r.0 <==> ToDecimal(value, parse).Converted?
    ensures r.0 ==> r.1 == ToDecimal(value, parse).value
    ensures !r.0 ==> r.1 == 0.0
  {
    match ToDecimal(value, parse)
    case Converted(x) => (true, x)
    case Threw(_) => (false, 0.0)
  }

  /** Every number IsValid accepts converts to itself when it lies within the
      decimal range; a string converts exactly when it parses within range. */
  lemma {:induction false} ConversionOfAcceptedValues(value: Value, parse: string -> Option<real>)
    ensures IsValid(value) && WellFormed(value) && -DecimalMax <= value.x <= DecimalMax ==>
              ToDecimal(value, parse) == Converted(value.x)
    ensures value.Str? ==>
              (ToDecimal(value, parse).Converted? <==>
                 parse(value.s).Some? && -DecimalMax <= parse(value.s).value <= DecimalMax)
    ensures value.Obj? || ToDecimal(value, parse).Threw? ==> !TryConvertToDecimal(value, parse).0
  {
    if IsValid(value) && WellFormed(value) {
      IsValidIffBoxedNumber(value);
    }
  }

  /** The editor NumericUpDown, reduced to what the builder sets: its data
      context, the property its Value is bound to, and the bounds the builder
      assigned (None: the control's own default stays). */
  datatype NumericUpDown = NumericUpDown(
    dataContext: ConfigModule,
    valueBinding: string,
    minimum: Option<real>,
    maximum: Option<real>,
    increment: Option<real>)

  /** What Build returns: the dropdown builder's editor for the property, or a numeric editor. */
  datatype Control =
    | Dropdown(context: ConfigModule, property: ConfigProperty, attribute: DropdownConfig)
    | Numeric(control: NumericUpDown)

  /** Build: a dropdown attribute wins over everything else; otherwise a
      numeric editor bound to the property on the module, whose minimum,
      maximum and increment are each set from the numeric attribute exactly
      when that value converts to decimal. */
  method Build(context: ConfigModule, property: ConfigProperty, parse: string -> Option<real>) returns (r: Control)
    ensures property.dropdown.Some? ==> r == Dropdown(context, property, property.dropdown.value)
    ensures property.dropdown.None? ==>
              r.Numeric? && r.control.dataContext == context && r.control.valueBinding == property.name
    ensures property.dropdown.None? && property.numeric.None? ==>
              r.control.minimum.None? && r.control.maximum.None? && r.control.increment.None?
    ensures property.dropdown.None? && property.numeric.Some? ==>
              var attr := property.numeric.value;
              (r.control.minimum.Some? <==> ToDecimal(attr.minimum, parse).Converted?) &&
              (r.control.maximum.Some? <==> ToDecimal(attr.maximum, parse).Converted?) &&
              (r.control.increment.Some? <==> ToDecimal(attr.increment, parse).Converted?) &&
              (r.control.minimum.Some? ==> r.control.minimum.value == ToDecimal(attr.minimum, parse).value) &&
              (r.control.maximum.Some? ==> r.control.maximum.value == ToDecimal(attr.maximum, parse).value) &&
              (r.control.increment.Some? ==> r.control.increment.value == ToDecimal(attr.increment, parse).value)
  {
    if property.dropdown.Some? {
      return Dropdown(context, property, property.dropdown.value);
    }
    var control := NumericUpDown(context, property.name, None, None, None);
    if property.numeric.Some? {
      var attr := property.numeric.value;
      var (okMin, min) := TryConvertToDecimal(attr.minimum, parse);
      if okMin {
        control := control.(minimum := Some(min));
      }
      var (okMax, max) := TryConvertToDecimal(attr.maximum, parse);
      if okMax {
        control := control.(maximum := Some(max));
      }
      var (okInc, inc) := TryConvertToDecimal(attr.increment, parse);
      if okInc {
        control := control.(increment := Some(inc));
      }
    }
    r := Numeric(control);
  }

  // ---------------------------------------------------------------------
  // Dispatch: ConfigFactory asks IsValid about a property's declared type

  /** As written, dispatch hands IsValid the Type object of the declared
      type, whose own runtime type is System.Type, so the numeric builder
      accepts no property at all. */
  lemma TypeObjectRejected(t: ClrType)
    ensures !IsValid(TypeObject(t))
  {
  }

  /** The registry entry as the dispatch code uses it. */
  function AsWrittenEntry(build: (ConfigModule, ConfigProperty) -> Value): ConfigFactory.Builder {
    ConfigFactory.Builder((t: ClrType) => IsValid(TypeObject(t)), build)
  }

  /** With the numeric builder alone registered, as written, Append places
      no item, even for an int property. */
  lemma {:induction false} AsWrittenPlacesNothing(l: ConfigFactory.Layout, props: seq<ConfigProperty>,
                                                  build: (ConfigModule, ConfigProperty) -> Value, config: ConfigModule)
    ensures ConfigFactory.PlaceAll(l, props, [AsWrittenEntry(build)], config) == l
  {
    if props != [] {
      var p := props[|props| - 1];
      TypeObjectRejected(p.propertyType);
      assert !AsWrittenEntry(build).isValid(p.propertyType);
      ConfigFactory.DispatchIsFirstMatch([AsWrittenEntry(build)], p.propertyType);
      AsWrittenPlacesNothing(l, props[..|props| - 1], build, config);
    }
  }

  /** The evident intent: accept a declared type when values of that type
      are what IsValid accepts. */
  predicate AcceptsType(t: ClrType) {
    IsNumericType(t)
  }

  /** AcceptsType agrees with IsValid on the runtime type of every non-null value. */
  lemma AcceptsTypeMatchesIsValid(value: Value)
    requires value != Null
    ensures AcceptsType(RuntimeTypeOf(value)) == IsValid(value)
  {
  }

  function CorrectedEntry(build: (ConfigModule, ConfigProperty) -> Value): ConfigFactory.Builder {
    ConfigFactory.Builder(AcceptsType, build)
  }

  /** With the corrected entry registered first, every numeric property gets
      an item built by the numeric builder, and no other property does. */
  lemma CorrectedDispatch(builders: seq<ConfigFactory.Builder>, build: (ConfigModule, ConfigProperty) -> Value,
                          config: ConfigModule, p: ConfigProperty)
    requires |builders| > 0 && builders[0] == CorrectedEntry(build)
    ensures IsNumericType(p.propertyType) ==>
              ConfigFactory.Accepts(builders, p) &&
              ConfigFactory.ItemFor(builders, config, p).content == build(config, p)
    ensures |builders| == 1 ==> (ConfigFactory.Accepts(builders, p) <==> IsNumericType(p.propertyType))
  {
    ConfigFactory.DispatchIsFirstMatch(builders, p.propertyType);
  }
}
