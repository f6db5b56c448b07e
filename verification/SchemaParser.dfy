/**
  The schema-driven parser of the blockchain connector and the printer that makes values
  JSON compatible. Values are compared by content; the printer's rewriting in place of
  shared objects is not represented.
 */
module SchemaParser {
  import opened Results
  import opened Text

  /** JavaScript values. `Num` is an integral number and `NaN` the number that is not one. */
  datatype Value =
    | Null | Undefined | NaN
    | Bool(b: bool)
    | Num(n: int)
    | Str(s: string)
    | Buf(bytes: seq<Byte>)
    | Big(big: int)
    | Arr(elems: seq<Value>)
    | Obj(props: seq<Prop>)

  datatype Prop = Prop(key: string, value: Value)

  datatype SchemaType = NoType | ObjectType | ArrayType

  datatype DataType = StringData | BooleanData | BytesData | Int32Data | Int64Data | OtherData

  /** `lisk32` says that the schema's format is `lisk32`. */
  datatype Schema = Schema(schemaType: SchemaType, dataType: DataType, lisk32: bool, items: Option<Schema>,
                           properties: map<string, Schema>)

  // ----- The printer -----

  /** `parseToJSONCompatObj`. A zero bigint is falsy and is returned as it is. */
  function Print(v: Value): (r: Value)
    decreases v, 0
  {
    match v
    case Buf(bytes) => Str(ToHex(bytes))
    case Big(n) => if n == 0 then v else Str(Decimal(n))
    case Arr(elems) => Arr(PrintAll(elems))
    case Obj(props) => Obj(PrintProps(props))
    case _ => v
  }

  function PrintAll(vs: seq<Value>): (r: seq<Value>) {
    if vs == [] then [] else [Print(vs[0])] + PrintAll(vs[1..])
  }

  /** A property value: here a bigint is tested before it is tested for being falsy. */
  function PrintProp(v: Value): (r: Value)
    decreases v, 1
  {
    if v.Big? then Str(Decimal(v.big)) else Print(v)
  }

  function PrintProps(ps: seq<Prop>): (r: seq<Prop>) {
    if ps == [] then [] else [Prop(ps[0].key, PrintProp(ps[0].value))] + PrintProps(ps[1..])
  }

  /** The printer is idempotent on every value. */
  lemma {:induction false} PrintIdempotent(v: Value)
    ensures Print(Print(v)) == Print(v)
    decreases v
  {
    match v
    case Arr(elems) => PrintAllIdempotent(elems);
    case Obj(props) => PrintPropsIdempotent(props);
    case _ =>
  }

  lemma {:induction false} PrintAllIdempotent(vs: seq<Value>)
    ensures PrintAll(PrintAll(vs)) == PrintAll(vs)
    decreases vs
  {
    if vs == [] {
    } else {
      PrintIdempotent(vs[0]);
      PrintAllIdempotent(vs[1..]);
      assert PrintAll(vs)[1..] == PrintAll(vs[1..]);
    }
  }

  lemma {:induction false} PrintPropsIdempotent(ps: seq<Prop>)
    ensures PrintProps(PrintProps(ps)) == PrintProps(ps)
    decreases ps
  {
    if ps == [] {
    } else {
      PrintIdempotent(ps[0].value);
      PrintPropsIdempotent(ps[1..]);
      assert PrintProps(ps)[1..] == PrintProps(ps[1..]);
    }
  }

  // ----- The parser -----

  /** `String(v)` on a primitive value. */
  function StringOf(v: Value): (s: string) {
    match v
    case Str(s) => s
    case Num(n) => Decimal(n)
    case Big(n) => Decimal(n)
    case Bool(b) => if b then "true" else "false"
    case NaN => "NaN"
    case _ => "undefined"
  }

  /** `Boolean(v)` on a primitive value. */
  function BooleanOf(v: Value): (b: bool) {
    match v
    case Str(s) => s != ""
    case Num(n) => n != 0
    case Big(n) => n != 0
    case Bool(b) => b
    case _ => false
  }

  /** `Number(v)` on a primitive value. */
  function NumberOf(v: Value): (r: Value) {
    match v
    case Str(s) => if s == "" then Num(0) else if ParseDecimal(s).Ok? then Num(ParseDecimal(s).value) else NaN
    case Num(_) => v
    case Big(n) => Num(n)
    case Bool(b) => Num(if b then 1 else 0)
    case _ => NaN
  }

  /** `BigInt(v)` on a primitive value. */
  function BigIntOf(v: Value): (r: Result<Value>) {
    match v
    case Str(s) =>
      if s == "" then Ok(Big(0))
      else if ParseDecimal(s).Ok? then Ok(Big(ParseDecimal(s).value))
      else Err("SyntaxError")
    case Num(n) => Ok(Big(n))
    case Big(_) => Ok(v)
    case Bool(b) => Ok(Big(if b then 1 else 0))
    case NaN => Err("RangeError")
    case _ => Err("TypeError")
  }

  /** `typeof v !== 'object'`. */
  predicate Primitive(v: Value) {
    !(v.Null? || v.Buf? || v.Arr? || v.Obj?)
  }

  predicate StartsWithLsk(s: string) {
    |s| >= 3 && s[..3] == "lsk"
  }

  /** The bytes behind a lisk32 address, which another library computes. */
  type AddressOf = string -> seq<Byte>

  function ParseLeaf(v: Value, dataType: DataType, lisk32: bool, addressOf: AddressOf): (r: Result<Value>) {
    match dataType
    case StringData => Ok(Str(StringOf(v)))
    case BooleanData => Ok(Bool(BooleanOf(v)))
    case BytesData =>
      if !v.Str? then Err("TypeError")
      else if lisk32 && StartsWithLsk(v.s) then Ok(Buf(addressOf(v.s)))
      else Ok(Buf(FromHex(v.s)))
    case Int32Data => Ok(NumberOf(v))
    case Int64Data => BigIntOf(v)
    case OtherData => Ok(v)
  }

  /** `parseInputBySchema`; an absent schema cannot be destructured. */
  function Parse(v: Value, schema: Option<Schema>, addressOf: AddressOf): (r: Result<Value>)
    decreases v, 1
  {
    if schema.None? then Err("TypeError")
    else if Primitive(v) then ParseLeaf(v, schema.value.dataType, schema.value.lisk32, addressOf)
    else
      match schema.value.schemaType
      case ObjectType =>
        if !v.Obj? then Err("TypeError")
        else
          var props := ParseProps(v.props, schema.value.properties, addressOf);
          if props.Ok? then Ok(Obj(props.value)) else Err(props.error)
      case ArrayType => ParseArray(v, schema.value.items, addressOf)
      case NoType => Ok(v)
  }

  /** `v.map(item => parseInputBySchema(item, items))`. */
  function ParseArray(v: Value, items: Option<Schema>, addressOf: AddressOf): (r: Result<Value>)
    decreases v, 0
  {
    if !v.Arr? then Err("TypeError")
    else
      var elems := ParseAll(v.elems, items, addressOf);
      if elems.Ok? then Ok(Arr(elems.value)) else Err(elems.error)
  }

  function ParseAll(vs: seq<Value>, items: Option<Schema>, addressOf: AddressOf): (r: Result<seq<Value>>)
    decreases vs
  {
    if vs == [] then Ok([])
    else
      var first := Parse(vs[0], items, addressOf);
      if first.Err? then Err(first.error)
      else
        var rest := ParseAll(vs[1..], items, addressOf);
        if rest.Err? then rest else Ok([first.value] + rest.value)
  }

  /** One property: an array goes element by element, another object goes to the property's
      schema, and a primitive value sees its data type and format only. */
  function ParseProp(v: Value, schema: Option<Schema>, addressOf: AddressOf): (r: Result<Value>)
    decreases v, 2
  {
    if schema.Some? && schema.value.schemaType == ArrayType then ParseArray(v, schema.value.items, addressOf)
    else if !Primitive(v) then Parse(v, schema, addressOf)
    else if schema.Some? then ParseLeaf(v, schema.value.dataType, schema.value.lisk32, addressOf)
    else ParseLeaf(v, OtherData, false, addressOf)
  }

  function PropertySchema(properties: map<string, Schema>, key: string): (s: Option<Schema>) {
    if key in properties then Some(properties[key]) else None
  }

  function ParseProps(ps: seq<Prop>, properties: map<string, Schema>, addressOf: AddressOf): (r: Result<seq<Prop>>)
    decreases ps
  {
    if ps == [] then Ok([])
    else
      var first := ParseProp(ps[0].value, PropertySchema(properties, ps[0].key), addressOf);
      if first.Err? then Err(first.error)
      else
        var rest := ParseProps(ps[1..], properties, addressOf);
        if rest.Err? then rest else Ok([Prop(ps[0].key, first.value)] + rest.value)
  }

  // ----- What an accepted input denotes -----

  /** The number behind a text or value; an empty text counts as zero. */
  ghost predicate DenotesNumber(v: Value, n: int) {
    match v
    case Str(s) => (s == "" && n == 0) || DenotesInt(s, n)
    case Num(m) => m == n
    case Big(m) => m == n
    case Bool(b) => n == if b then 1 else 0
    case _ => false
  }

  /** The text of a value; a number's is the one without a plus sign or leading zeros. */
  ghost predicate DenotesText(v: Value, s: string) {
    match v
    case Str(t) => s == t
    case Bool(b) => s == if b then "true" else "false"
    case Undefined => s == "undefined"
    case NaN => s == "NaN"
    case _ => CanonicalDecimal(s) && exists n :: DenotesNumber(v, n) && DenotesInt(s, n)
  }

  /** What a primitive value means under a data type. */
  ghost predicate LeafDenotes(v: Value, dataType: DataType, lisk32: bool, addressOf: AddressOf, r: Value) {
    match dataType
    case StringData => r.Str? && DenotesText(v, r.s)
    case BooleanData => r == Bool(!(v in [Str(""), Num(0), Big(0), Bool(false), Undefined, NaN]))
    case BytesData =>
      v.Str? && r.Buf? &&
      if lisk32 && "lsk" <= v.s then r.bytes == addressOf(v.s) else DenotesHex(v.s, r.bytes)
    case Int32Data => (r.Num? && DenotesNumber(v, r.n)) || (r == NaN && forall n :: !DenotesNumber(v, n))
    case Int64Data => r.Big? && DenotesNumber(v, r.big)
    case OtherData => r == v
  }

  /** What a value means under a schema: objects and arrays keep their shape, at any depth. */
  ghost predicate Denotes(v: Value, schema: Option<Schema>, addressOf: AddressOf, r: Value)
    decreases v, 1
  {
    schema.Some? &&
    if Primitive(v) then LeafDenotes(v, schema.value.dataType, schema.value.lisk32, addressOf, r)
    else
      match schema.value.schemaType
      case ObjectType =>
        v.Obj? && r.Obj? && |r.props| == |v.props| &&
        forall i :: 0 <= i < |v.props| ==>
          r.props[i].key == v.props[i].key &&
          PropDenotes(v.props[i].value, PropertySchema(schema.value.properties, v.props[i].key), addressOf,
                      r.props[i].value)
      case ArrayType => ArrayDenotes(v, schema.value.items, addressOf, r)
      case NoType => r == v
  }

  ghost predicate ArrayDenotes(v: Value, items: Option<Schema>, addressOf: AddressOf, r: Value)
    decreases v, 0
  {
    v.Arr? && r.Arr? && |r.elems| == |v.elems| &&
    forall i :: 0 <= i < |v.elems| ==> Denotes(v.elems[i], items, addressOf, r.elems[i])
  }

  ghost predicate PropDenotes(v: Value, schema: Option<Schema>, addressOf: AddressOf, r: Value)
    decreases v, 2
  {
    if schema.Some? && schema.value.schemaType == ArrayType then ArrayDenotes(v, schema.value.items, addressOf, r)
    else if !Primitive(v) then Denotes(v, schema, addressOf, r)
    else if schema.None? then r == v
    else LeafDenotes(v, schema.value.dataType, schema.value.lisk32, addressOf, r)
  }

  lemma NumberIff(v: Value, n: int)
    requires Primitive(v)
    ensures BigIntOf(v) == Ok(Big(n)) <==> DenotesNumber(v, n)
    ensures NumberOf(v) == Num(n) <==> DenotesNumber(v, n)
  {
    if v.Str? {
      ParseDecimalIff(v.s, n);
      if v.s == "" {
        ParseDecimalIff("", n);
      }
    }
  }

  lemma TextIff(v: Value, s: string)
    requires Primitive(v)
    ensures StringOf(v) == s <==> DenotesText(v, s)
  {
    if v.Num? || v.Big? {
      var n := if v.Num? then v.n else v.big;
      ParseUndoesDecimal(n);
      ParseDecimalIff(s, n);
      DecimalRoundTripIff(s);
      assert DenotesNumber(v, n);
    }
  }

  lemma LeafDenotesIff(v: Value, dataType: DataType, lisk32: bool, addressOf: AddressOf, r: Value)
    requires Primitive(v)
    ensures ParseLeaf(v, dataType, lisk32, addressOf) == Ok(r) <==> LeafDenotes(v, dataType, lisk32, addressOf, r)
  {
    match dataType
    case StringData =>
      if r.Str? { TextIff(v, r.s); }
    case BytesData =>
      if v.Str? && r.Buf? { FromHexIff(v.s, r.bytes); }
    case Int32Data =>
      NumberLeafIff(v, r);
    case Int64Data =>
      if r.Big? { NumberIff(v, r.big); }
    case _ =>
  }

  lemma NumberLeafIff(v: Value, r: Value)
    requires Primitive(v)
    ensures NumberOf(v) == r <==> (r.Num? && DenotesNumber(v, r.n)) || (r == NaN && forall n :: !DenotesNumber(v, n))
  {
    forall n
      ensures NumberOf(v) == Num(n) <==> DenotesNumber(v, n)
    {
      NumberIff(v, n);
    }
  }

  /** The parser, exactly: at any nesting depth it accepts an input with a result if and only if the
      result is what the input denotes under its schema. */
  lemma {:induction false} ParseIffDenotes(v: Value, schema: Option<Schema>, addressOf: AddressOf, r: Value)
    ensures Parse(v, schema, addressOf) == Ok(r) <==> Denotes(v, schema, addressOf, r)
    decreases v, 1
  {
    if schema.Some? {
      if Primitive(v) {
        LeafDenotesIff(v, schema.value.dataType, schema.value.lisk32, addressOf, r);
      } else {
        match schema.value.schemaType
        case ObjectType =>
          if v.Obj? && r.Obj? { PropsIffDenote(v.props, schema.value.properties, addressOf, r.props); }
        case ArrayType => ArrayIffDenotes(v, schema.value.items, addressOf, r);
        case NoType =>
      }
    }
  }

  lemma {:induction false} ArrayIffDenotes(v: Value, items: Option<Schema>, addressOf: AddressOf, r: Value)
    ensures ParseArray(v, items, addressOf) == Ok(r) <==> ArrayDenotes(v, items, addressOf, r)
    decreases v, 0
  {
    if v.Arr? && r.Arr? {
      AllIffDenote(v.elems, items, addressOf, r.elems);
    }
  }

  ghost predicate AllDenote(vs: seq<Value>, items: Option<Schema>, addressOf: AddressOf, rs: seq<Value>) {
    |rs| == |vs| && forall i :: 0 <= i < |vs| ==> Denotes(vs[i], items, addressOf, rs[i])
  }

  lemma {:induction false} AllIffDenote(vs: seq<Value>, items: Option<Schema>, addressOf: AddressOf, rs: seq<Value>)
    ensures ParseAll(vs, items, addressOf) == Ok(rs) <==> AllDenote(vs, items, addressOf, rs)
    decreases vs
  {
    if vs == [] {
    } else {
      var first, rest := Parse(vs[0], items, addressOf), ParseAll(vs[1..], items, addressOf);
      if rs != [] {
        ParseIffDenotes(vs[0], items, addressOf, rs[0]);
        AllIffDenote(vs[1..], items, addressOf, rs[1..]);
        AllDenoteSplit(vs, items, addressOf, rs);
        if first.Ok? && rest.Ok? {
          SplitEqual(first.value, rest.value, rs);
        }
      }
    }
  }

  lemma AllDenoteSplit(vs: seq<Value>, items: Option<Schema>, addressOf: AddressOf, rs: seq<Value>)
    requires vs != [] && rs != []
    ensures AllDenote(vs, items, addressOf, rs) <==>
            Denotes(vs[0], items, addressOf, rs[0]) && AllDenote(vs[1..], items, addressOf, rs[1..])
  {
    if Denotes(vs[0], items, addressOf, rs[0]) && AllDenote(vs[1..], items, addressOf, rs[1..]) {
      forall i | 1 <= i < |vs|
        ensures Denotes(vs[i], items, addressOf, rs[i])
      {
        assert vs[i] == vs[1..][i - 1] && rs[i] == rs[1..][i - 1];
      }
    }
  }

  ghost predicate PropsDenote(ps: seq<Prop>, properties: map<string, Schema>, addressOf: AddressOf, rs: seq<Prop>) {
    |rs| == |ps| &&
    forall i :: 0 <= i < |ps| ==>
      rs[i].key == ps[i].key &&
      PropDenotes(ps[i].value, PropertySchema(properties, ps[i].key), addressOf, rs[i].value)
  }

  lemma {:induction false} PropIffDenotes(v: Value, schema: Option<Schema>, addressOf: AddressOf, r: Value)
    ensures ParseProp(v, schema, addressOf) == Ok(r) <==> PropDenotes(v, schema, addressOf, r)
    decreases v, 2
  {
    if schema.Some? && schema.value.schemaType == ArrayType {
      ArrayIffDenotes(v, schema.value.items, addressOf, r);
    } else if !Primitive(v) {
      ParseIffDenotes(v, schema, addressOf, r);
    } else if schema.Some? {
      LeafDenotesIff(v, schema.value.dataType, schema.value.lisk32, addressOf, r);
    }
  }

  lemma {:induction false} PropsIffDenote(ps: seq<Prop>, properties: map<string, Schema>, addressOf: AddressOf,
                                          rs: seq<Prop>)
    ensures ParseProps(ps, properties, addressOf) == Ok(rs) <==> PropsDenote(ps, properties, addressOf, rs)
    decreases ps
  {
    if ps == [] {
    } else {
      var schema := PropertySchema(properties, ps[0].key);
      var first, rest := ParseProp(ps[0].value, schema, addressOf), ParseProps(ps[1..], properties, addressOf);
      if rs != [] {
        PropIffDenotes(ps[0].value, schema, addressOf, rs[0].value);
        PropsIffDenote(ps[1..], properties, addressOf, rs[1..]);
        PropsDenoteSplit(ps, properties, addressOf, rs);
        if first.Ok? && rest.Ok? {
          SplitEqual(Prop(ps[0].key, first.value), rest.value, rs);
        }
      }
    }
  }

  lemma PropsDenoteSplit(ps: seq<Prop>, properties: map<string, Schema>, addressOf: AddressOf, rs: seq<Prop>)
    requires ps != [] && rs != []
    ensures PropsDenote(ps, properties, addressOf, rs) <==>
            rs[0].key == ps[0].key &&
            PropDenotes(ps[0].value, PropertySchema(properties, ps[0].key), addressOf, rs[0].value) &&
            PropsDenote(ps[1..], properties, addressOf, rs[1..])
  {
    assert forall i :: 1 <= i < |ps| ==> ps[i] == ps[1..][i - 1];
    assert forall i :: 1 <= i < |rs| ==> rs[i] == rs[1..][i - 1];
  }

  // ----- Which inputs survive the round trip -----

  /** JSON values: what an input can hold. */
  predicate IsJson(v: Value) {
    match v
    case Undefined => false
    case NaN => false
    case Buf(_) => false
    case Big(_) => false
    case Arr(elems) => forall i :: 0 <= i < |elems| ==> IsJson(elems[i])
    case Obj(props) => forall i :: 0 <= i < |props| ==> IsJson(props[i].value)
    case _ => true
  }

  /** A primitive input in the one form its data type is printed in. Outside an object
      property a zero 64-bit number is not: it is left as a bigint. */
  predicate CanonicalLeaf(v: Value, dataType: DataType, inProperty: bool) {
    match dataType
    case StringData => v.Str?
    case BooleanData => v.Bool?
    case BytesData => v.Str? && LowerHex(v.s)
    case Int32Data => v.Num?
    case Int64Data => v.Str? && CanonicalDecimal(v.s) && (inProperty || v.s != "0")
    case OtherData => true
  }

  predicate Canonical(v: Value, schema: Option<Schema>, inProperty: bool)
    decreases v, 1
  {
    schema.Some? &&
    if Primitive(v) then CanonicalLeaf(v, schema.value.dataType, inProperty)
    else
      match schema.value.schemaType
      case ObjectType =>
        v.Obj? &&
        forall i :: 0 <= i < |v.props| ==>
          CanonicalProp(v.props[i].value, PropertySchema(schema.value.properties, v.props[i].key))
      case ArrayType => CanonicalArray(v, schema.value.items)
      case NoType => true
  }

  predicate CanonicalArray(v: Value, items: Option<Schema>)
    decreases v, 0
  {
    v.Arr? && forall i :: 0 <= i < |v.elems| ==> Canonical(v.elems[i], items, false)
  }

  predicate CanonicalProp(v: Value, schema: Option<Schema>)
    decreases v, 2
  {
    if schema.Some? && schema.value.schemaType == ArrayType then CanonicalArray(v, schema.value.items)
    else if !Primitive(v) then Canonical(v, schema, true)
    else schema.None? || CanonicalLeaf(v, schema.value.dataType, true)
  }

  ghost predicate Survives(v: Value, r: Result<Value>, inProperty: bool) {
    r.Ok? && (if inProperty then PrintProp(r.value) else Print(r.value)) == v
  }

  lemma PrintCases(v: Value)
    ensures Print(v) == match v
                        case Buf(bytes) => Str(ToHex(bytes))
                        case Big(n) => if n == 0 then v else Str(Decimal(n))
                        case Arr(elems) => Arr(PrintAll(elems))
                        case Obj(props) => Obj(PrintProps(props))
                        case _ => v
    ensures PrintProp(v) == if v.Big? then Str(Decimal(v.big)) else Print(v)
  {
  }

  lemma LskStartsWithL(s: string)
    requires StartsWithLsk(s)
    ensures s[0] == 'l'
  {
    assert s[..3][0] == 'l';
  }

  lemma HexIsNotLsk(bytes: seq<Byte>)
    ensures !StartsWithLsk(ToHex(bytes))
  {
    if StartsWithLsk(ToHex(bytes)) {
      LskStartsWithL(ToHex(bytes));
    }
  }

  lemma LeafRoundTripIff(v: Value, dataType: DataType, lisk32: bool, addressOf: AddressOf, inProperty: bool)
    requires IsJson(v) && Primitive(v)
    ensures Survives(v, ParseLeaf(v, dataType, lisk32, addressOf), inProperty) <==>
            CanonicalLeaf(v, dataType, inProperty)
  {
    var r := ParseLeaf(v, dataType, lisk32, addressOf);
    if r.Ok? { PrintCases(r.value); }
    match dataType
    case BytesData =>
      if v.Str? {
        HexRoundTripIff(v.s);
        HexIsNotLsk(FromHex(v.s));
        HexIsNotLsk(addressOf(v.s));
      }
    case Int64Data =>
      if v.Str? {
        DecimalRoundTripIff(v.s);
        if CanonicalDecimal(v.s) { ZeroIsZero(v.s); }
      }
    case _ =>
  }

  lemma ZeroIsZero(s: string)
    requires CanonicalDecimal(s)
    ensures ParseDecimal(s).Ok? && (ParseDecimal(s).value == 0 <==> s == "0")
  {
    DecimalRoundTripIff(s);
    assert Decimal(0) == "0";
    assert ""[..0] == "" && "0"[..0] == "";
  }

  lemma {:induction false} PrintFixesJson(v: Value)
    requires IsJson(v)
    ensures Print(v) == v && PrintProp(v) == v
    decreases v
  {
    match v
    case Arr(elems) => PrintFixesAll(elems);
    case Obj(props) => PrintFixesProps(props);
    case _ =>
  }

  lemma {:induction false} PrintFixesAll(vs: seq<Value>)
    requires forall i :: 0 <= i < |vs| ==> IsJson(vs[i])
    ensures PrintAll(vs) == vs
    decreases vs
  {
    if vs == [] {
    } else {
      PrintFixesJson(vs[0]);
      PrintFixesAll(vs[1..]);
    }
  }

  lemma {:induction false} PrintFixesProps(ps: seq<Prop>)
    requires forall i :: 0 <= i < |ps| ==> IsJson(ps[i].value)
    ensures PrintProps(ps) == ps
    decreases ps
  {
    if ps == [] {
    } else {
      PrintFixesJson(ps[0].value);
      PrintFixesProps(ps[1..]);
    }
  }

  /** Parser and printer undo each other, exactly: at any nesting depth, a JSON input parses
      and prints back to itself if and only if it is canonical for its schema. */
  lemma {:induction false} RoundTripIff(v: Value, schema: Option<Schema>, addressOf: AddressOf, inProperty: bool)
    requires IsJson(v)
    ensures Survives(v, Parse(v, schema, addressOf), inProperty) <==> Canonical(v, schema, inProperty)
    decreases v, 1
  {
    var r := Parse(v, schema, addressOf);
    if r.Ok? { PrintCases(r.value); }
    if schema.Some? {
      if Primitive(v) {
        LeafRoundTripIff(v, schema.value.dataType, schema.value.lisk32, addressOf, inProperty);
      } else {
        match schema.value.schemaType
        case ObjectType =>
          if v.Obj? { RoundTripPropsIff(v.props, schema.value.properties, addressOf); }
        case ArrayType => RoundTripArrayIff(v, schema.value.items, addressOf, inProperty);
        case NoType => PrintFixesJson(v);
      }
    }
  }

  lemma {:induction false} RoundTripArrayIff(v: Value, items: Option<Schema>, addressOf: AddressOf, inProperty: bool)
    requires IsJson(v)
    ensures Survives(v, ParseArray(v, items, addressOf), inProperty) <==> CanonicalArray(v, items)
    decreases v, 0
  {
    var r := ParseArray(v, items, addressOf);
    if r.Ok? { PrintCases(r.value); }
    if v.Arr? {
      RoundTripAllIff(v.elems, items, addressOf);
    }
  }

  lemma {:induction false} RoundTripAllIff(vs: seq<Value>, items: Option<Schema>, addressOf: AddressOf)
    requires forall i :: 0 <= i < |vs| ==> IsJson(vs[i])
    ensures var r := ParseAll(vs, items, addressOf);
            r.Ok? && PrintAll(r.value) == vs <==> forall i :: 0 <= i < |vs| ==> Canonical(vs[i], items, false)
    decreases vs
  {
    if vs == [] {
    } else {
      RoundTripIff(vs[0], items, addressOf, false);
      RoundTripAllIff(vs[1..], items, addressOf);
      var r := ParseAll(vs, items, addressOf);
      if r.Ok? {
        assert r.value[1..] == ParseAll(vs[1..], items, addressOf).value;
        assert PrintAll(r.value) == [Print(r.value[0])] + PrintAll(r.value[1..]);
        SplitEqual(Print(r.value[0]), PrintAll(r.value[1..]), vs);
      }
      AllSplit(vs, items);
    }
  }

  lemma SplitEqual<T>(x: T, xs: seq<T>, ys: seq<T>)
    requires ys != []
    ensures [x] + xs == ys <==> x == ys[0] && xs == ys[1..]
  {
    if [x] + xs == ys {
      assert ([x] + xs)[1..] == xs;
    }
  }

  lemma AllSplit(vs: seq<Value>, items: Option<Schema>)
    requires vs != []
    ensures (forall i :: 0 <= i < |vs| ==> Canonical(vs[i], items, false)) <==>
            Canonical(vs[0], items, false) && forall i :: 0 <= i < |vs[1..]| ==> Canonical(vs[1..][i], items, false)
  {
    assert forall i :: 1 <= i < |vs| ==> vs[i] == vs[1..][i - 1];
  }

  lemma {:induction false} RoundTripPropIff(v: Value, schema: Option<Schema>, addressOf: AddressOf)
    requires IsJson(v)
    ensures Survives(v, ParseProp(v, schema, addressOf), true) <==> CanonicalProp(v, schema)
    decreases v, 2
  {
    if schema.Some? && schema.value.schemaType == ArrayType {
      RoundTripArrayIff(v, schema.value.items, addressOf, true);
    } else if !Primitive(v) {
      RoundTripIff(v, schema, addressOf, true);
    } else if schema.Some? {
      LeafRoundTripIff(v, schema.value.dataType, schema.value.lisk32, addressOf, true);
    } else {
      LeafRoundTripIff(v, OtherData, false, addressOf, true);
    }
  }

  lemma {:induction false} RoundTripPropsIff(ps: seq<Prop>, properties: map<string, Schema>, addressOf: AddressOf)
    requires forall i :: 0 <= i < |ps| ==> IsJson(ps[i].value)
    ensures var r := ParseProps(ps, properties, addressOf);
            r.Ok? && PrintProps(r.value) == ps <==>
            forall i :: 0 <= i < |ps| ==> CanonicalProp(ps[i].value, PropertySchema(properties, ps[i].key))
    decreases ps
  {
    if ps == [] {
    } else {
      RoundTripPropIff(ps[0].value, PropertySchema(properties, ps[0].key), addressOf);
      RoundTripPropsIff(ps[1..], properties, addressOf);
      var r := ParseProps(ps, properties, addressOf);
      if r.Ok? {
        assert r.value[1..] == ParseProps(ps[1..], properties, addressOf).value;
        var first := Prop(r.value[0].key, PrintProp(r.value[0].value));
        assert PrintProps(r.value) == [first] + PrintProps(r.value[1..]);
        SplitEqual(first, PrintProps(r.value[1..]), ps);
      }
      PropsSplit(ps, properties);
    }
  }

  lemma PropsSplit(ps: seq<Prop>, properties: map<string, Schema>)
    requires ps != []
    ensures (forall i :: 0 <= i < |ps| ==> CanonicalProp(ps[i].value, PropertySchema(properties, ps[i].key))) <==>
            CanonicalProp(ps[0].value, PropertySchema(properties, ps[0].key)) &&
            forall i :: 0 <= i < |ps[1..]| ==>
              CanonicalProp(ps[1..][i].value, PropertySchema(properties, ps[1..][i].key))
  {
    assert forall i :: 1 <= i < |ps| ==> ps[i] == ps[1..][i - 1];
  }

  /** The guard can fail inside an array: there a zero stays a bigint. */
  lemma ZeroInArrayIsLost(addressOf: AddressOf)
    ensures var item := Some(Schema(NoType, Int64Data, false, None, map[]));
            ParseAll([Str("0")], item, addressOf) == Ok([Big(0)]) && PrintAll([Big(0)]) == [Big(0)]
  {
    ParseUndoesDecimal(0);
    assert Decimal(0) == "0";
    var input, output: seq<Value> := [Str("0")], [Big(0)];
    assert input[1..] == [] && output[1..] == [] && output + [] == output;
    var item := Some(Schema(NoType, Int64Data, false, None, map[]));
    assert Parse(Str("0"), item, addressOf) == Ok(Big(0));
    assert ParseAll([], item, addressOf) == Ok([]);
    PrintCases(Big(0));
    assert PrintAll([]) == [];
  }
}
