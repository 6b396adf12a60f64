/** The implementation dependency node builder: for each binding with an
    implementation it collects the accessible constructors and the injectable
    members of the implementation type, ranks the construction variants and
    numbers them. Roslyn symbols are abstracted to the facts the builder
    reads; the variants builder, whose code is not part of this model, is a
    parameter. */
module NodeBuilder {
  import opened Models
  import opened Sorting

  // ---------------------------------------------------------------------------
  // Symbols and setup

  /** An attribute applied to a symbol: its class and its constructor arguments. */
  datatype AttributeData = AttributeData(attributeClass: TypeId, arguments: seq<Constant>)

  /** The attributes applied to a symbol. */
  datatype Symbol = Symbol(attributes: seq<AttributeData>)

  /** Attribute metadata of the setup: which attribute class is meant, and which
      of its constructor arguments carries the value. */
  datatype MdAttribute = MdAttribute(attributeType: TypeId, argumentPosition: int)

  /** The type T that GetAttribute looks for: int for ordinals, a type for
      type attributes, any object for tags. */
  datatype ValueKind = IntValue | TypeValue | ObjectValue

  datatype ParameterSymbol = ParameterSymbol(declaredType: TypeId, symbol: Symbol)

  datatype ConstructorSymbol = ConstructorSymbol(accessibility: Accessibility, symbol: Symbol, parameters: seq<ParameterSymbol>)

  /** A member of the implementation type, with the flags the builder tests. */
  datatype MemberSymbol =
    | MethodSymbol(isStatic: bool, accessibility: Accessibility, isOrdinary: bool, symbol: Symbol, parameters: seq<ParameterSymbol>)
    | FieldSymbol(isStatic: bool, accessibility: Accessibility, isReadOnly: bool, isConst: bool, isRequired: bool,
                  declaredType: TypeId, symbol: Symbol)
    | PropertySymbol(isStatic: bool, accessibility: Accessibility, isReadOnly: bool, isIndexer: bool, isRequired: bool,
                     isInitOnly: bool, declaredType: TypeId, symbol: Symbol)
    | OtherSymbol(isStatic: bool, accessibility: Accessibility)

  /** The implementation type of a binding: a named type or some other type. */
  datatype TypeSymbol =
    | NamedType(isAbstract: bool, constructors: seq<ConstructorSymbol>, members: seq<MemberSymbol>)
    | OtherType

  datatype MdImplementation = MdImplementation(typeSymbol: TypeSymbol, instanceType: TypeId)

  datatype MdBinding = MdBinding(id: BindingId, lifetime: Lifetime, implementation: Option<MdImplementation>)

  /** The setup: its bindings, the attribute metadata and the type constructor
      (the identity when the setup has none). */
  datatype MdSetup = MdSetup(
    bindings: seq<MdBinding>,
    typeAttributes: seq<MdAttribute>,
    tagAttributes: seq<MdAttribute>,
    ordinalAttributes: seq<MdAttribute>,
    typeConstructor: TypeId -> TypeId)

  /** The compile errors the builder raises. */
  datatype BuildError =
    | AbstractType(binding: BindingId)
    | NoAccessibleConstructor(binding: BindingId)
    | MultipleAttributes(attributeType: TypeId)
    | ArgumentOutOfRange(attributeType: TypeId, position: int, length: nat)
    | NoVariants(binding: BindingId)

  /** Internal, public and friend (an alias of internal) members are candidates. */
  predicate IsAccessible(a: Accessibility) {
    a == Internal || a == Public
  }

  // ---------------------------------------------------------------------------
  // GetAttribute

  /** member.GetAttributes(attributeType): the attributes of that class, in order. */
  function AttributesOf(s: Symbol, attributeType: TypeId): (r: seq<AttributeData>)
    ensures forall a :: a in r <==> a in s.attributes && a.attributeClass == attributeType
  {
    AttributesIn(s.attributes, attributeType)
  }

  function AttributesIn(attributes: seq<AttributeData>, attributeType: TypeId): (r: seq<AttributeData>)
    ensures forall a :: a in r <==> a in attributes && a.attributeClass == attributeType
  {
    if attributes == [] then []
    else
      var rest := AttributesIn(attributes[1..], attributeType);
      assert forall a :: a in attributes <==> a == attributes[0] || a in attributes[1..];
      if attributes[0].attributeClass == attributeType then [attributes[0]] + rest else rest
  }

  /** The pattern `value is T`: a null value matches no type. */
  predicate IsValueOf(c: Constant, kind: ValueKind) {
    match kind
    case IntValue => c.IntConstant?
    case TypeValue => c.TypeConstant?
    case ObjectValue => !c.NullConstant?
  }

  /** The metadata entry m is passed over: the symbol has no attribute of its
      class, or exactly one whose argument at the position is in range and is
      not a T. */
  predicate PassesOver(m: MdAttribute, s: Symbol, kind: ValueKind) {
    var data := AttributesOf(s, m.attributeType);
    || |data| == 0
    || (&& |data| == 1
        && 0 <= m.argumentPosition < |data[0].arguments|
        && !IsValueOf(data[0].arguments[m.argumentPosition], kind))
  }

  /** GetAttribute, as intended: the first metadata entry whose single
      attribute carries a T at the argument position gives the value; none
      gives the default (None); two attributes of one class, or a position
      outside the arguments, is a compile error. */
  function AttributeLookup(ms: seq<MdAttribute>, s: Symbol, kind: ValueKind): (r: Result<Option<Constant>, BuildError>)
    ensures r.Success? && r.value.Some? ==> IsValueOf(r.value.value, kind)
  {
    if ms == [] then Success(None)
    else
      var data := AttributesOf(s, ms[0].attributeType);
      if |data| == 1 then
        var args := data[0].arguments;
        var pos := ms[0].argumentPosition;
        if pos < 0 || pos >= |args| then Failure(ArgumentOutOfRange(ms[0].attributeType, pos, |args|))
        else if IsValueOf(args[pos], kind) then Success(Some(args[pos]))
        else AttributeLookup(ms[1..], s, kind)
      else if |data| > 1 then Failure(MultipleAttributes(ms[0].attributeType))
      else AttributeLookup(ms[1..], s, kind)
  }

  /** Entries that are passed over do not decide the lookup. */
  lemma {:induction false} LookupSkipsPassedOver(ms: seq<MdAttribute>, s: Symbol, kind: ValueKind, i: nat)
    requires i <= |ms| && forall j :: 0 <= j < i ==> PassesOver(ms[j], s, kind)
    ensures AttributeLookup(ms, s, kind) == AttributeLookup(ms[i..], s, kind)
  {
    if i > 0 {
      assert PassesOver(ms[0], s, kind);
      LookupSkipsPassedOver(ms[1..], s, kind, i - 1);
      assert ms[1..][i - 1..] == ms[i..];
    }
  }

  /** The default is returned exactly when every entry is passed over. */
  lemma {:induction false} LookupDefault(ms: seq<MdAttribute>, s: Symbol, kind: ValueKind)
    ensures AttributeLookup(ms, s, kind) == Success(None) <==> forall j :: 0 <= j < |ms| ==> PassesOver(ms[j], s, kind)
  {
    if ms != [] {
      LookupDefault(ms[1..], s, kind);
      if forall j :: 0 <= j < |ms[1..]| ==> PassesOver(ms[1..][j], s, kind) {
        if PassesOver(ms[0], s, kind) {
          forall j | 0 <= j < |ms| ensures PassesOver(ms[j], s, kind) {
            if j > 0 { assert ms[j] == ms[1..][j - 1]; }
          }
        }
      }
      if forall j :: 0 <= j < |ms| ==> PassesOver(ms[j], s, kind) {
        assert PassesOver(ms[0], s, kind);
        forall j | 0 <= j < |ms[1..]| ensures PassesOver(ms[1..][j], s, kind) {
          assert ms[1..][j] == ms[j + 1];
        }
      }
    }
  }

  /** After entries that are passed over, the first entry whose single
      attribute carries a T at the position gives that value. */
  lemma LookupFirstMatch(ms: seq<MdAttribute>, s: Symbol, kind: ValueKind, i: nat)
    requires i < |ms| && forall j :: 0 <= j < i ==> PassesOver(ms[j], s, kind)
    requires |AttributesOf(s, ms[i].attributeType)| == 1
    requires var args := AttributesOf(s, ms[i].attributeType)[0].arguments;
      0 <= ms[i].argumentPosition < |args| && IsValueOf(args[ms[i].argumentPosition], kind)
    ensures AttributeLookup(ms, s, kind) == Success(Some(AttributesOf(s, ms[i].attributeType)[0].arguments[ms[i].argumentPosition]))
  {
    LookupSkipsPassedOver(ms, s, kind, i);
    assert ms[i..][0] == ms[i];
  }

  /** After entries that are passed over, two attributes of one class are an error. */
  lemma LookupMultiple(ms: seq<MdAttribute>, s: Symbol, kind: ValueKind, i: nat)
    requires i < |ms| && forall j :: 0 <= j < i ==> PassesOver(ms[j], s, kind)
    requires |AttributesOf(s, ms[i].attributeType)| > 1
    ensures AttributeLookup(ms, s, kind) == Failure(MultipleAttributes(ms[i].attributeType))
  {
    LookupSkipsPassedOver(ms, s, kind, i);
    assert ms[i..][0] == ms[i];
  }

  /** After entries that are passed over, a single attribute whose argument
      position lies outside its arguments is reported as invalid metadata,
      with the position and the number of arguments. */
  lemma LookupOutOfRange(ms: seq<MdAttribute>, s: Symbol, kind: ValueKind, i: nat)
    requires i < |ms| && forall j :: 0 <= j < i ==> PassesOver(ms[j], s, kind)
    requires |AttributesOf(s, ms[i].attributeType)| == 1
    requires var args := AttributesOf(s, ms[i].attributeType)[0].arguments;
      ms[i].argumentPosition < 0 || ms[i].argumentPosition >= |args|
    ensures AttributeLookup(ms, s, kind) ==
      Failure(ArgumentOutOfRange(ms[i].attributeType, ms[i].argumentPosition, |AttributesOf(s, ms[i].attributeType)[0].arguments|))
  {
    LookupSkipsPassedOver(ms, s, kind, i);
    assert ms[i..][0] == ms[i];
  }

  /** The outcome of GetAttribute as the source is written. */
  datatype LookupOutcome =
    | Found(value: Constant)
    | NotFound
    | MultipleFound(attributeType: TypeId)
    | IndexOutOfRange(diagnosticLogged: bool)

  /** GetAttribute as written: the guard reports a position greater than the
      number of arguments, and the argument is then read whatever the guard
      found, which throws for any position outside the arguments. */
  function AttributeLookupAsWritten(ms: seq<MdAttribute>, s: Symbol, kind: ValueKind): (r: LookupOutcome)
    ensures r.Found? ==> IsValueOf(r.value, kind)
  {
    if ms == [] then NotFound
    else
      var data := AttributesOf(s, ms[0].attributeType);
      if |data| == 1 then
        var args := data[0].arguments;
        var pos := ms[0].argumentPosition;
        var logged := pos > |args|;
        if pos < 0 || pos >= |args| then IndexOutOfRange(logged)
        else if IsValueOf(args[pos], kind) then Found(args[pos])
        else AttributeLookupAsWritten(ms[1..], s, kind)
      else if |data| > 1 then MultipleFound(ms[0].attributeType)
      else AttributeLookupAsWritten(ms[1..], s, kind)
  }

  /** A position equal to the number of arguments passes the guard unreported
      and the read throws, where the intended lookup reports the metadata. */
  lemma PositionAtLengthIsUnreported()
    ensures var ms := [MdAttribute(7, 1)];
      var s := Symbol([AttributeData(7, [IntConstant(3)])]);
      && AttributeLookupAsWritten(ms, s, IntValue) == IndexOutOfRange(false)
      && AttributeLookup(ms, s, IntValue) == Failure(ArgumentOutOfRange(7, 1, 1))
  {
    var s := Symbol([AttributeData(7, [IntConstant(3)])]);
    assert s.attributes[1..] == [];
    assert AttributesOf(s, 7) == [AttributeData(7, [IntConstant(3)])];
  }

  /** The outcome of the intended lookup in the terms of the source. */
  function AsOutcome(r: Result<Option<Constant>, BuildError>): LookupOutcome {
    match r
    case Success(Some(c)) => Found(c)
    case Success(None) => NotFound
    case Failure(MultipleAttributes(t)) => MultipleFound(t)
    case Failure(_) => IndexOutOfRange(true)
  }

  /** Away from the off-by-one the two lookups agree: when no position equals
      the number of arguments, a position out of range is reported by both. */
  lemma {:induction false} AsWrittenAgreesOffTheBoundary(ms: seq<MdAttribute>, s: Symbol, kind: ValueKind)
    requires forall j :: 0 <= j < |ms| ==> forall a :: a in AttributesOf(s, ms[j].attributeType) ==>
      0 <= ms[j].argumentPosition != |a.arguments|
    ensures AttributeLookupAsWritten(ms, s, kind) == AsOutcome(AttributeLookup(ms, s, kind))
  {
    if ms != [] {
      var data := AttributesOf(s, ms[0].attributeType);
      if |data| == 1 {
        assert data[0] in data;
      }
      assert forall j :: 0 <= j < |ms[1..]| ==> ms[1..][j] == ms[j + 1];
      AsWrittenAgreesOffTheBoundary(ms[1..], s, kind);
    }
  }

  /** The GetAttribute loop: scans the metadata in order, returning early. */
  method GetAttribute(ms: seq<MdAttribute>, s: Symbol, kind: ValueKind) returns (r: Result<Option<Constant>, BuildError>)
    ensures r == AttributeLookup(ms, s, kind)
  {
    var i := 0;
    while i < |ms|
      invariant i <= |ms| && AttributeLookup(ms, s, kind) == AttributeLookup(ms[i..], s, kind)
    {
      assert ms[i..][0] == ms[i] && ms[i..][1..] == ms[i + 1..];
      var data := AttributesOf(s, ms[i].attributeType);
      if |data| == 1 {
        var args := data[0].arguments;
        var pos := ms[i].argumentPosition;
        if pos < 0 || pos >= |args| {
          return Failure(ArgumentOutOfRange(ms[i].attributeType, pos, |args|));
        }
        if IsValueOf(args[pos], kind) {
          return Success(Some(args[pos]));
        }
      } else if |data| > 1 {
        return Failure(MultipleAttributes(ms[i].attributeType));
      }
      i := i + 1;
    }
    r := Success(None);
  }

  /** GetAttribute for an ordinal (int?, default null). */
  function Ordinal(setup: MdSetup, s: Symbol): (r: Result<Option<int>, BuildError>)
    ensures r.Success? <==> AttributeLookup(setup.ordinalAttributes, s, IntValue).Success?
    ensures r.Failure? ==> r.error == AttributeLookup(setup.ordinalAttributes, s, IntValue).error
    ensures r.Success? ==> (r.value.Some? <==> AttributeLookup(setup.ordinalAttributes, s, IntValue).value.Some?)
    ensures r.Success? && r.value.Some? ==> AttributeLookup(setup.ordinalAttributes, s, IntValue).value.value == IntConstant(r.value.value)
  {
    var c :- AttributeLookup(setup.ordinalAttributes, s, IntValue);
    match c
    case Some(IntConstant(i)) => Success(Some(i))
    case _ => Success(None)
  }

  /** The injection of a parameter, field or property: the type from a type
      attribute, else the constructed declared type; the tag from a tag
      attribute, else none. */
  function InjectionOf(setup: MdSetup, s: Symbol, declaredType: TypeId): (r: Result<Injection, BuildError>)
    ensures r.Success? <==>
      AttributeLookup(setup.typeAttributes, s, TypeValue).Success? && AttributeLookup(setup.tagAttributes, s, ObjectValue).Success?
    // the type attribute is looked up first, so its error wins
    ensures r.Failure? && AttributeLookup(setup.typeAttributes, s, TypeValue).Failure? ==>
      r.error == AttributeLookup(setup.typeAttributes, s, TypeValue).error
    ensures r.Failure? && AttributeLookup(setup.typeAttributes, s, TypeValue).Success? ==>
      r.error == AttributeLookup(setup.tagAttributes, s, ObjectValue).error
    // a type found is the contract as it is; otherwise the declared type, constructed
    ensures r.Success? && AttributeLookup(setup.typeAttributes, s, TypeValue).value.Some? ==>
      AttributeLookup(setup.typeAttributes, s, TypeValue).value.value == TypeConstant(r.value.contract)
    ensures r.Success? && AttributeLookup(setup.typeAttributes, s, TypeValue).value.None? ==>
      r.value.contract == setup.typeConstructor(declaredType)
    // a tag found is the tag; otherwise none
    ensures r.Success? && AttributeLookup(setup.tagAttributes, s, ObjectValue).value.Some? ==>
      r.value.tag == TagValue(AttributeLookup(setup.tagAttributes, s, ObjectValue).value.value)
    ensures r.Success? && AttributeLookup(setup.tagAttributes, s, ObjectValue).value.None? ==> r.value.tag == Untagged
  {
    var t :- AttributeLookup(setup.typeAttributes, s, TypeValue);
    var tag :- AttributeLookup(setup.tagAttributes, s, ObjectValue);
    var contract := match t case Some(TypeConstant(id)) => id case _ => setup.typeConstructor(declaredType);
    Success(Injection(contract, match tag case Some(c) => TagValue(c) case None => Untagged))
  }

  method GetInjection(setup: MdSetup, s: Symbol, declaredType: TypeId) returns (r: Result<Injection, BuildError>)
    ensures r == InjectionOf(setup, s, declaredType)
  {
    var t := GetAttribute(setup.typeAttributes, s, TypeValue);
    if t.Failure? {
      return Failure(t.error);
    }
    var tag := GetAttribute(setup.tagAttributes, s, ObjectValue);
    if tag.Failure? {
      return Failure(tag.error);
    }
    var contract := match t.value case Some(TypeConstant(id)) => id case _ => setup.typeConstructor(declaredType);
    r := Success(Injection(contract, match tag.value case Some(c) => TagValue(c) case None => Untagged));
  }

  method GetOrdinal(setup: MdSetup, s: Symbol) returns (r: Result<Option<int>, BuildError>)
    ensures r == Ordinal(setup, s)
  {
    var c := GetAttribute(setup.ordinalAttributes, s, IntValue);
    if c.Failure? {
      return Failure(c.error);
    }
    r := match c.value case Some(IntConstant(i)) => Success(Some(i)) case _ => Success(None);
  }

  // ---------------------------------------------------------------------------
  // Parameters, constructors and members

  /** Prepends known elements to the value of a successful result. */
  function PrependTo<T>(xs: seq<T>, r: Result<seq<T>, BuildError>): Result<seq<T>, BuildError> {
    match r
    case Success(ys) => Success(xs + ys)
    case Failure(e) => Failure(e)
  }

  /** GetParameters: the injections of the parameters, in order. */
  function Parameters(setup: MdSetup, ps: seq<ParameterSymbol>): (r: Result<seq<Injection>, BuildError>)
    ensures r.Success? <==> forall k :: 0 <= k < |ps| ==> InjectionOf(setup, ps[k].symbol, ps[k].declaredType).Success?
    ensures r.Success? ==> |r.value| == |ps|
    ensures r.Success? ==> forall k :: 0 <= k < |ps| ==> r.value[k] == InjectionOf(setup, ps[k].symbol, ps[k].declaredType).value
    // the first parameter whose injection fails gives the error
    ensures r.Failure? ==>
      exists k :: 0 <= k < |ps| && InjectionOf(setup, ps[k].symbol, ps[k].declaredType) == Failure(r.error) &&
        forall j :: 0 <= j < k ==> InjectionOf(setup, ps[j].symbol, ps[j].declaredType).Success?
  {
    if ps == [] then Success([])
    else
      var head := InjectionOf(setup, ps[0].symbol, ps[0].declaredType);
      if head.Failure? then Failure(head.error)
      else
        var rest := Parameters(setup, ps[1..]);
        assert forall k :: 0 < k < |ps| ==> ps[k] == ps[1..][k - 1];
        if rest.Failure? then Failure(rest.error)
        else Success([head.value] + rest.value)
  }

  lemma ParametersStep(setup: MdSetup, ps: seq<ParameterSymbol>, i: nat)
    requires i < |ps|
    ensures InjectionOf(setup, ps[i].symbol, ps[i].declaredType).Failure? ==>
      Parameters(setup, ps[i..]) == Failure(InjectionOf(setup, ps[i].symbol, ps[i].declaredType).error)
    ensures InjectionOf(setup, ps[i].symbol, ps[i].declaredType).Success? ==>
      Parameters(setup, ps[i..]) == PrependTo([InjectionOf(setup, ps[i].symbol, ps[i].declaredType).value], Parameters(setup, ps[i + 1..]))
  {
    assert ps[i..][0] == ps[i] && ps[i..][1..] == ps[i + 1..];
  }

  method GetParameters(setup: MdSetup, ps: seq<ParameterSymbol>) returns (r: Result<seq<Injection>, BuildError>)
    ensures r == Parameters(setup, ps)
  {
    var injections: seq<Injection> := [];
    var i := 0;
    PrependNothing(Parameters(setup, ps));
    assert ps[0..] == ps;
    while i < |ps|
      invariant i <= |ps| && Parameters(setup, ps) == PrependTo(injections, Parameters(setup, ps[i..]))
    {
      ParametersStep(setup, ps, i);
      var inj := GetInjection(setup, ps[i].symbol, ps[i].declaredType);
      if inj.Failure? {
        return Failure(inj.error);
      }
      PrependToAssoc(injections, [inj.value], Parameters(setup, ps[i + 1..]));
      injections := injections + [inj.value];
      i := i + 1;
    }
    assert ps[i..] == [];
    assert injections + [] == injections;
    r := Success(injections);
  }

  lemma PrependNothing<T>(r: Result<seq<T>, BuildError>)
    ensures PrependTo([], r) == r
  {
    if r.Success? {
      assert [] + r.value == r.value;
    }
  }

  lemma PrependToAssoc<T>(a: seq<T>, b: seq<T>, r: Result<seq<T>, BuildError>)
    ensures PrependTo(a, PrependTo(b, r)) == PrependTo(a + b, r)
  {
    if r.Success? {
      assert a + (b + r.value) == (a + b) + r.value;
    }
  }

  /** The constructor as a candidate: none when it is not accessible. */
  function ConstructorEntry(setup: MdSetup, c: ConstructorSymbol): (r: Result<Option<DpMethod>, BuildError>)
    ensures r.Success? ==> (r.value.Some? <==> IsAccessible(c.accessibility))
    ensures r.Success? && r.value.Some? ==> r.value.value.accessibility == c.accessibility
    ensures !IsAccessible(c.accessibility) ==> r == Success(None)
  {
    if !IsAccessible(c.accessibility) then Success(None)
    else
      var ordinal :- Ordinal(setup, c.symbol);
      var parameters :- Parameters(setup, c.parameters);
      Success(Some(DpMethod(c.accessibility, ordinal, parameters)))
  }

  function OptionToSeq<T>(o: Option<T>): seq<T> {
    match o
    case Some(x) => [x]
    case None => []
  }

  /** The number of accessible constructors. */
  function AccessibleCount(cs: seq<ConstructorSymbol>): nat {
    if cs == [] then 0 else (if IsAccessible(cs[0].accessibility) then 1 else 0) + AccessibleCount(cs[1..])
  }

  /** What each constructor contributes on its own: its candidate, or
      nothing when it is not accessible. */
  function CandidatesPerConstructor(setup: MdSetup, cs: seq<ConstructorSymbol>): seq<seq<DpMethod>>
    requires forall k :: 0 <= k < |cs| ==> ConstructorEntry(setup, cs[k]).Success?
  {
    seq(|cs|, k requires 0 <= k < |cs| && ConstructorEntry(setup, cs[k]).Success? => OptionToSeq(ConstructorEntry(setup, cs[k]).value))
  }

  /** The candidate constructors: the entries of the accessible constructors
      in declaration order; the first constructor whose lookups fail gives
      the error. */
  function Constructors(setup: MdSetup, cs: seq<ConstructorSymbol>): (r: Result<seq<DpMethod>, BuildError>)
    ensures r.Success? <==> forall k :: 0 <= k < |cs| ==> ConstructorEntry(setup, cs[k]).Success?
    ensures r.Success? ==> r.value == Flatten(CandidatesPerConstructor(setup, cs))
    ensures r.Success? ==> |r.value| == AccessibleCount(cs)
    ensures r.Success? ==> forall k :: 0 <= k < |r.value| ==> IsAccessible(r.value[k].accessibility)
    ensures r.Failure? ==>
      exists k :: 0 <= k < |cs| && ConstructorEntry(setup, cs[k]) == Failure(r.error) &&
        forall j :: 0 <= j < k ==> ConstructorEntry(setup, cs[j]).Success?
  {
    if cs == [] then Success([])
    else
      var head := ConstructorEntry(setup, cs[0]);
      if head.Failure? then Failure(head.error)
      else
        var rest := Constructors(setup, cs[1..]);
        assert forall k :: 0 < k < |cs| ==> cs[k] == cs[1..][k - 1];
        if rest.Failure? then Failure(rest.error)
        else
          var r := OptionToSeq(head.value) + rest.value;
          assert CandidatesPerConstructor(setup, cs)[1..] == CandidatesPerConstructor(setup, cs[1..]);
          assert forall k :: 0 <= k < |r| ==> IsAccessible(r[k].accessibility) by {
            forall k | 0 <= k < |r| ensures IsAccessible(r[k].accessibility) {
              if k >= |OptionToSeq(head.value)| { assert r[k] == rest.value[k - |OptionToSeq(head.value)|]; }
            }
          }
          Success(r)
  }

  lemma ConstructorsStep(setup: MdSetup, cs: seq<ConstructorSymbol>, i: nat)
    requires i < |cs|
    ensures ConstructorEntry(setup, cs[i]).Failure? ==>
      Constructors(setup, cs[i..]) == Failure(ConstructorEntry(setup, cs[i]).error)
    ensures ConstructorEntry(setup, cs[i]).Success? ==>
      Constructors(setup, cs[i..]) == PrependTo(OptionToSeq(ConstructorEntry(setup, cs[i]).value), Constructors(setup, cs[i + 1..]))
  {
    assert cs[i..][0] == cs[i] && cs[i..][1..] == cs[i + 1..];
  }

  method CollectConstructors(setup: MdSetup, cs: seq<ConstructorSymbol>) returns (r: Result<seq<DpMethod>, BuildError>)
    ensures r == Constructors(setup, cs)
  {
    var constructors: seq<DpMethod> := [];
    var i := 0;
    PrependNothing(Constructors(setup, cs));
    assert cs[0..] == cs;
    while i < |cs|
      invariant i <= |cs| && Constructors(setup, cs) == PrependTo(constructors, Constructors(setup, cs[i..]))
    {
      ConstructorsStep(setup, cs, i);
      ghost var e := ConstructorEntry(setup, cs[i]);
      ghost var rest := Constructors(setup, cs[i + 1..]);
      if IsAccessible(cs[i].accessibility) {
        var ordinal := GetOrdinal(setup, cs[i].symbol);
        if ordinal.Failure? {
          assert e == Failure(ordinal.error);
          return Failure(ordinal.error);
        }
        var parameters := GetParameters(setup, cs[i].parameters);
        if parameters.Failure? {
          assert e == Failure(parameters.error);
          return Failure(parameters.error);
        }
        var m := DpMethod(cs[i].accessibility, ordinal.value, parameters.value);
        assert e == Success(Some(m));
        PrependToAssoc(constructors, [m], rest);
        constructors := constructors + [m];
      } else {
        assert e == Success(None);
        PrependToAssoc(constructors, [], rest);
        assert constructors + [] == constructors;
      }
      i := i + 1;
    }
    assert cs[i..] == [];
    assert constructors + [] == constructors;
    r := Success(constructors);
  }

  /** What one member contributes. */
  datatype Entry =
    | NoEntry
    | MethodEntry(dpMethod: DpMethod)
    | FieldEntry(field: DpField)
    | PropertyEntry(property: DpProperty)

  /** The member filter: static or inaccessible members are skipped; an
      ordinary method is kept when it has an ordinal; a field that is neither
      read-only nor const, and a property that is neither read-only nor an
      indexer, are kept when they have an ordinal or are required. */
  function MemberEntry(setup: MdSetup, m: MemberSymbol): (r: Result<Entry, BuildError>)
    ensures m.isStatic || !IsAccessible(m.accessibility) || m.OtherSymbol? ==> r == Success(NoEntry)
    ensures r.Success? && r.value.MethodEntry? ==>
      && m.MethodSymbol? && !m.isStatic && IsAccessible(m.accessibility) && m.isOrdinary
      && r.value.dpMethod.ordinal.Some? && r.value.dpMethod.accessibility == m.accessibility
      && |r.value.dpMethod.parameters| == |m.parameters|
    ensures r.Success? && r.value.FieldEntry? ==>
      && m.FieldSymbol? && !m.isStatic && IsAccessible(m.accessibility) && !m.isReadOnly && !m.isConst
      && (r.value.field.ordinal.Some? || m.isRequired) && r.value.field.isRequired == m.isRequired
    ensures r.Success? && r.value.PropertyEntry? ==>
      && m.PropertySymbol? && !m.isStatic && IsAccessible(m.accessibility) && !m.isReadOnly && !m.isIndexer
      && (r.value.property.ordinal.Some? || m.isRequired)
      && r.value.property.isRequired == m.isRequired && r.value.property.isInitOnly == m.isInitOnly
    ensures m.FieldSymbol? && !m.isStatic && IsAccessible(m.accessibility) && !m.isReadOnly && !m.isConst && m.isRequired ==>
      r.Failure? || r.value.FieldEntry?
    ensures m.PropertySymbol? && !m.isStatic && IsAccessible(m.accessibility) && !m.isReadOnly && !m.isIndexer && m.isRequired ==>
      r.Failure? || r.value.PropertyEntry?
    // an entry carries the ordinal and the injections that the lookups give
    ensures r.Success? && r.value.MethodEntry? ==>
      Ordinal(setup, m.symbol) == Success(r.value.dpMethod.ordinal) && Parameters(setup, m.parameters) == Success(r.value.dpMethod.parameters)
    ensures r.Success? && r.value.FieldEntry? ==>
      Ordinal(setup, m.symbol) == Success(r.value.field.ordinal)
      && InjectionOf(setup, m.symbol, m.declaredType) == Success(r.value.field.injection)
    ensures r.Success? && r.value.PropertyEntry? ==>
      Ordinal(setup, m.symbol) == Success(r.value.property.ordinal)
      && InjectionOf(setup, m.symbol, m.declaredType) == Success(r.value.property.injection)
    // the converse: a member that passes the filter is kept unless a lookup fails
    ensures (&& m.MethodSymbol? && !m.isStatic && IsAccessible(m.accessibility) && m.isOrdinary
             && Ordinal(setup, m.symbol).Success? && Ordinal(setup, m.symbol).value.Some?) ==>
      (r.Success? <==> Parameters(setup, m.parameters).Success?) && (r.Success? ==> r.value.MethodEntry?)
    ensures (&& m.FieldSymbol? && !m.isStatic && IsAccessible(m.accessibility) && !m.isReadOnly && !m.isConst
             && Ordinal(setup, m.symbol).Success? && (Ordinal(setup, m.symbol).value.Some? || m.isRequired)) ==>
      (r.Success? <==> InjectionOf(setup, m.symbol, m.declaredType).Success?) && (r.Success? ==> r.value.FieldEntry?)
    ensures (&& m.PropertySymbol? && !m.isStatic && IsAccessible(m.accessibility) && !m.isReadOnly && !m.isIndexer
             && Ordinal(setup, m.symbol).Success? && (Ordinal(setup, m.symbol).value.Some? || m.isRequired)) ==>
      (r.Success? <==> InjectionOf(setup, m.symbol, m.declaredType).Success?) && (r.Success? ==> r.value.PropertyEntry?)
    // a failing ordinal lookup fails a member that passes the flag tests
    ensures (&& !m.isStatic && IsAccessible(m.accessibility)
             && (|| (m.MethodSymbol? && m.isOrdinary)
                 || (m.FieldSymbol? && !m.isReadOnly && !m.isConst)
                 || (m.PropertySymbol? && !m.isReadOnly && !m.isIndexer))
             && Ordinal(setup, m.symbol).Failure?) ==>
      r == Failure(Ordinal(setup, m.symbol).error)
  {
    if m.isStatic || !IsAccessible(m.accessibility) then Success(NoEntry)
    else
      match m
      case MethodSymbol(_, accessibility, isOrdinary, symbol, parameters) =>
        if !isOrdinary then Success(NoEntry)
        else
          var ordinal :- Ordinal(setup, symbol);
          if ordinal.None? then Success(NoEntry)
          else
            var injections :- Parameters(setup, parameters);
            Success(MethodEntry(DpMethod(accessibility, ordinal, injections)))
      case FieldSymbol(_, _, isReadOnly, isConst, isRequired, declaredType, symbol) =>
        if isReadOnly || isConst then Success(NoEntry)
        else
          var ordinal :- Ordinal(setup, symbol);
          if ordinal.None? && !isRequired then Success(NoEntry)
          else
            var injection :- InjectionOf(setup, symbol, declaredType);
            Success(FieldEntry(DpField(isRequired, ordinal, injection)))
      case PropertySymbol(_, _, isReadOnly, isIndexer, isRequired, isInitOnly, declaredType, symbol) =>
        if isReadOnly || isIndexer then Success(NoEntry)
        else
          var ordinal :- Ordinal(setup, symbol);
          if ordinal.None? && !isRequired then Success(NoEntry)
          else
            var injection :- InjectionOf(setup, symbol, declaredType);
            Success(PropertyEntry(DpProperty(isRequired, isInitOnly, ordinal, injection)))
      case OtherSymbol(_, _) => Success(NoEntry)
  }

  /** The ordinal methods, the injectable fields and the injectable properties. */
  datatype MemberLists = MemberLists(methods: seq<DpMethod>, fields: seq<DpField>, properties: seq<DpProperty>)

  function Add(e: Entry, l: MemberLists): MemberLists {
    match e
    case NoEntry => l
    case MethodEntry(m) => l.(methods := [m] + l.methods)
    case FieldEntry(f) => l.(fields := [f] + l.fields)
    case PropertyEntry(p) => l.(properties := [p] + l.properties)
  }

  /** The lists of the members, each in declaration order. */
  function Members(setup: MdSetup, ms: seq<MemberSymbol>): (r: Result<MemberLists, BuildError>) {
    if ms == [] then Success(MemberLists([], [], []))
    else
      var e :- MemberEntry(setup, ms[0]);
      var rest :- Members(setup, ms[1..]);
      Success(Add(e, rest))
  }

  /** Each list holds exactly what the members contribute of its kind. */
  lemma {:induction false} MembersFromEntries(setup: MdSetup, ms: seq<MemberSymbol>)
    requires Members(setup, ms).Success?
    ensures var l := Members(setup, ms).value;
      && (forall f :: f in l.fields <==> exists k :: 0 <= k < |ms| && MemberEntry(setup, ms[k]) == Success(FieldEntry(f)))
      && (forall p :: p in l.properties <==> exists k :: 0 <= k < |ms| && MemberEntry(setup, ms[k]) == Success(PropertyEntry(p)))
      && (forall m :: m in l.methods <==> exists k :: 0 <= k < |ms| && MemberEntry(setup, ms[k]) == Success(MethodEntry(m)))
  {
    if ms != [] {
      MembersFromEntries(setup, ms[1..]);
      forall k | 0 <= k < |ms[1..]| ensures ms[1..][k] == ms[k + 1] { }
      var e := MemberEntry(setup, ms[0]).value;
      var l := Members(setup, ms).value;
      var rest := Members(setup, ms[1..]).value;
      forall f ensures f in l.fields <==> exists k :: 0 <= k < |ms| && MemberEntry(setup, ms[k]) == Success(FieldEntry(f)) {
        if exists k :: 0 <= k < |ms| && MemberEntry(setup, ms[k]) == Success(FieldEntry(f)) {
          var k :| 0 <= k < |ms| && MemberEntry(setup, ms[k]) == Success(FieldEntry(f));
          if k > 0 { assert MemberEntry(setup, ms[1..][k - 1]) == Success(FieldEntry(f)); }
        }
      }
      forall p ensures p in l.properties <==> exists k :: 0 <= k < |ms| && MemberEntry(setup, ms[k]) == Success(PropertyEntry(p)) {
        if exists k :: 0 <= k < |ms| && MemberEntry(setup, ms[k]) == Success(PropertyEntry(p)) {
          var k :| 0 <= k < |ms| && MemberEntry(setup, ms[k]) == Success(PropertyEntry(p));
          if k > 0 { assert MemberEntry(setup, ms[1..][k - 1]) == Success(PropertyEntry(p)); }
        }
      }
      forall m ensures m in l.methods <==> exists k :: 0 <= k < |ms| && MemberEntry(setup, ms[k]) == Success(MethodEntry(m)) {
        if exists k :: 0 <= k < |ms| && MemberEntry(setup, ms[k]) == Success(MethodEntry(m)) {
          var k :| 0 <= k < |ms| && MemberEntry(setup, ms[k]) == Success(MethodEntry(m));
          if k > 0 { assert MemberEntry(setup, ms[1..][k - 1]) == Success(MethodEntry(m)); }
        }
      }
    }
  }

  function MethodsOf(e: Entry): seq<DpMethod> {
    if e.MethodEntry? then [e.dpMethod] else []
  }

  function FieldsOf(e: Entry): seq<DpField> {
    if e.FieldEntry? then [e.field] else []
  }

  function PropertiesOf(e: Entry): seq<DpProperty> {
    if e.PropertyEntry? then [e.property] else []
  }

  /** SelectMany over the entries: what each contributes, in order. */
  function Picked<T>(es: seq<Entry>, pick: Entry -> seq<T>): seq<T> {
    if es == [] then [] else pick(es[0]) + Picked(es[1..], pick)
  }

  /** The entry of each member, in declaration order. */
  function EntriesOf(setup: MdSetup, ms: seq<MemberSymbol>): (es: seq<Entry>)
    requires forall k :: 0 <= k < |ms| ==> MemberEntry(setup, ms[k]).Success?
    ensures |es| == |ms| && forall k :: 0 <= k < |ms| ==> es[k] == MemberEntry(setup, ms[k]).value
  {
    seq(|ms|, k requires 0 <= k < |ms| && MemberEntry(setup, ms[k]).Success? => MemberEntry(setup, ms[k]).value)
  }

  /** The lists succeed exactly when every member's entry does. */
  lemma {:induction false} MembersSucceed(setup: MdSetup, ms: seq<MemberSymbol>)
    ensures Members(setup, ms).Success? <==> forall k :: 0 <= k < |ms| ==> MemberEntry(setup, ms[k]).Success?
  {
    if ms != [] {
      MembersSucceed(setup, ms[1..]);
      assert forall k :: 0 < k < |ms| ==> ms[k] == ms[1..][k - 1];
    }
  }

  /** The lists succeed exactly when every member's entry does; then each
      list holds the entries of its kind in declaration order, one per
      member that contributes one. */
  lemma {:induction false} MembersInDeclarationOrder(setup: MdSetup, ms: seq<MemberSymbol>)
    ensures Members(setup, ms).Success? <==> forall k :: 0 <= k < |ms| ==> MemberEntry(setup, ms[k]).Success?
    ensures Members(setup, ms).Success? ==>
      var es := EntriesOf(setup, ms);
      var l := Members(setup, ms).value;
      && l.methods == Picked(es, MethodsOf)
      && l.fields == Picked(es, FieldsOf)
      && l.properties == Picked(es, PropertiesOf)
  {
    MembersSucceed(setup, ms);
    if ms != [] && Members(setup, ms).Success? {
      MembersInDeclarationOrder(setup, ms[1..]);
      var head, tail := MemberEntry(setup, ms[0]), Members(setup, ms[1..]);
      assert Members(setup, ms) == Success(Add(head.value, tail.value));
      var es := EntriesOf(setup, ms);
      var rest := tail.value;
      assert es[0] == head.value;
      assert es[1..] == EntriesOf(setup, ms[1..]) by {
        assert forall k :: 0 < k < |ms| ==> ms[k] == ms[1..][k - 1];
      }
      assert [] + rest.methods == rest.methods && [] + rest.fields == rest.fields && [] + rest.properties == rest.properties;
    }
  }

  /** Appends an entry at the back of the lists. */
  function Append(l: MemberLists, e: Entry): MemberLists {
    match e
    case NoEntry => l
    case MethodEntry(m) => l.(methods := l.methods + [m])
    case FieldEntry(f) => l.(fields := l.fields + [f])
    case PropertyEntry(p) => l.(properties := l.properties + [p])
  }

  /** The members collected so far in front of the lists of the rest. */
  function Combine(acc: MemberLists, r: Result<MemberLists, BuildError>): Result<MemberLists, BuildError> {
    match r
    case Success(l) => Success(MemberLists(acc.methods + l.methods, acc.fields + l.fields, acc.properties + l.properties))
    case Failure(e) => Failure(e)
  }

  lemma CombineAdd(acc: MemberLists, e: Entry, r: Result<MemberLists, BuildError>)
    ensures Combine(acc, if r.Success? then Success(Add(e, r.value)) else r) == Combine(Append(acc, e), r)
  {
    if r.Success? {
      var l := r.value;
      assert acc.methods + ([] + l.methods) == (acc.methods + []) + l.methods;
      assert forall x: DpMethod :: acc.methods + ([x] + l.methods) == (acc.methods + [x]) + l.methods;
      assert forall x: DpField :: acc.fields + ([x] + l.fields) == (acc.fields + [x]) + l.fields;
      assert forall x: DpProperty :: acc.properties + ([x] + l.properties) == (acc.properties + [x]) + l.properties;
    }
  }

  method CollectMembers(setup: MdSetup, ms: seq<MemberSymbol>) returns (r: Result<MemberLists, BuildError>)
    ensures r == Members(setup, ms)
  {
    var lists := MemberLists([], [], []);
    var i := 0;
    assert ms[0..] == ms;
    if Members(setup, ms).Success? {
      var l := Members(setup, ms).value;
      assert [] + l.methods == l.methods && [] + l.fields == l.fields && [] + l.properties == l.properties;
    }
    while i < |ms|
      invariant i <= |ms| && Members(setup, ms) == Combine(lists, Members(setup, ms[i..]))
    {
      assert ms[i..][0] == ms[i] && ms[i..][1..] == ms[i + 1..];
      var e := CollectMember(setup, ms[i]);
      if e.Failure? {
        return Failure(e.error);
      }
      CombineAdd(lists, e.value, Members(setup, ms[i + 1..]));
      lists := Append(lists, e.value);
      i := i + 1;
    }
    assert ms[i..] == [];
    assert lists.methods + [] == lists.methods && lists.fields + [] == lists.fields && lists.properties + [] == lists.properties;
    r := Success(lists);
  }

  /** The body of the member loop for one member. */
  method CollectMember(setup: MdSetup, m: MemberSymbol) returns (r: Result<Entry, BuildError>)
    ensures r == MemberEntry(setup, m)
  {
    if m.isStatic || !IsAccessible(m.accessibility) {
      return Success(NoEntry);
    }
    match m
    case MethodSymbol(_, accessibility, isOrdinary, symbol, parameters) =>
      if !isOrdinary {
        return Success(NoEntry);
      }
      var ordinal := GetOrdinal(setup, symbol);
      if ordinal.Failure? {
        return Failure(ordinal.error);
      }
      if ordinal.value.None? {
        return Success(NoEntry);
      }
      var injections := GetParameters(setup, parameters);
      if injections.Failure? {
        return Failure(injections.error);
      }
      r := Success(MethodEntry(DpMethod(accessibility, ordinal.value, injections.value)));
    case FieldSymbol(_, _, isReadOnly, isConst, isRequired, declaredType, symbol) =>
      if isReadOnly || isConst {
        return Success(NoEntry);
      }
      var ordinal := GetOrdinal(setup, symbol);
      if ordinal.Failure? {
        return Failure(ordinal.error);
      }
      if ordinal.value.None? && !isRequired {
        return Success(NoEntry);
      }
      var injection := GetInjection(setup, symbol, declaredType);
      if injection.Failure? {
        return Failure(injection.error);
      }
      r := Success(FieldEntry(DpField(isRequired, ordinal.value, injection.value)));
    case PropertySymbol(_, _, isReadOnly, isIndexer, isRequired, isInitOnly, declaredType, symbol) =>
      if isReadOnly || isIndexer {
        return Success(NoEntry);
      }
      var ordinal := GetOrdinal(setup, symbol);
      if ordinal.Failure? {
        return Failure(ordinal.error);
      }
      if ordinal.value.None? && !isRequired {
        return Success(NoEntry);
      }
      var injection := GetInjection(setup, symbol, declaredType);
      if injection.Failure? {
        return Failure(injection.error);
      }
      r := Success(PropertyEntry(DpProperty(isRequired, isInitOnly, ordinal.value, injection.value)));
    case OtherSymbol(_, _) =>
      r := Success(NoEntry);
  }

  // ---------------------------------------------------------------------------
  // Injection counts and ranking

  /** The injections DependenciesWalker visits for an implementation: the
      constructor parameters, the parameters of each method, the fields and
      the properties. */
  function InjectionsOf(impl: DpImplementation): seq<Injection> {
    impl.ctor.parameters
    + MethodInjections(impl.methods)
    + seq(|impl.fields|, i requires 0 <= i < |impl.fields| => impl.fields[i].injection)
    + seq(|impl.properties|, i requires 0 <= i < |impl.properties| => impl.properties[i].injection)
  }

  /** The parameters of the methods, method by method. */
  function MethodInjections(ms: seq<DpMethod>): seq<Injection> {
    if ms == [] then [] else MethodInjections(ms[..|ms| - 1]) + ms[|ms| - 1].parameters
  }

  function InjectionsCount(impl: DpImplementation): nat {
    |InjectionsOf(impl)|
  }

  /** DependenciesToInjectionsCountWalker: the walker visits the constructor
      parameters, the parameters of each method, the fields and the
      properties, and the count goes up by one per injection visited. */
  method CountInjections(impl: DpImplementation) returns (count: nat)
    ensures count == InjectionsCount(impl)
  {
    count := 0;
    var k := 0;
    while k < |impl.ctor.parameters|
      invariant k <= |impl.ctor.parameters| && count == k
    {
      count := count + 1;
      k := k + 1;
    }
    ghost var visited := impl.ctor.parameters;
    var i := 0;
    while i < |impl.methods|
      invariant i <= |impl.methods| && count == |visited + MethodInjections(impl.methods[..i])|
    {
      var parameters := impl.methods[i].parameters;
      k := 0;
      while k < |parameters|
        invariant k <= |parameters| && count == |visited + MethodInjections(impl.methods[..i])| + k
      {
        count := count + 1;
        k := k + 1;
      }
      assert impl.methods[..i + 1][..i] == impl.methods[..i];
      i := i + 1;
    }
    assert impl.methods[..i] == impl.methods;
    visited := visited + MethodInjections(impl.methods);
    i := 0;
    while i < |impl.fields|
      invariant i <= |impl.fields| && count == |visited| + i
    {
      count := count + 1;
      i := i + 1;
    }
    visited := visited + seq(|impl.fields|, i requires 0 <= i < |impl.fields| => impl.fields[i].injection);
    i := 0;
    while i < |impl.properties|
      invariant i <= |impl.properties| && count == |visited| + i
    {
      count := count + 1;
      i := i + 1;
    }
  }

  /** OrderByDescending(GetInjectionsCount). */
  function MoreInjectionsFirst(impl: DpImplementation): Key {
    Key(-(InjectionsCount(impl) as int), 0)
  }

  /** OrderBy(Constructor.Ordinal). */
  function ConstructorOrdinal(impl: DpImplementation): Key {
    Key(impl.ctor.ordinal.GetOr(0), 0)
  }

  /** OrderBy(max - count).ThenByDescending(declared accessibility). */
  function RankKey(max: int): DpImplementation -> Key {
    impl => Key(max - InjectionsCount(impl), -impl.ctor.accessibility.Value())
  }

  function WithOrdinal(impls: seq<DpImplementation>): (r: seq<DpImplementation>)
    ensures forall x :: x in r <==> x in impls && x.ctor.ordinal.Some?
    ensures multiset(r) <= multiset(impls)
  {
    if impls == [] then []
    else
      assert impls == [impls[0]] + impls[1..];
      (if impls[0].ctor.ordinal.Some? then [impls[0]] else []) + WithOrdinal(impls[1..])
  }

  /** The variants of every implementation, each group in descending order of
      injection count. */
  function VariantsByCount(impls: seq<DpImplementation>, variants: DpImplementation -> seq<DpImplementation>): seq<seq<DpImplementation>> {
    seq(|impls|, i requires 0 <= i < |impls| => StableSortBy(variants(impls[i]), MoreInjectionsFirst))
  }

  function AllVariants(impls: seq<DpImplementation>, variants: DpImplementation -> seq<DpImplementation>): seq<DpImplementation> {
    Flatten(seq(|impls|, i requires 0 <= i < |impls| => variants(impls[i])))
  }

  /** implementations.Max(i => i.InjectionsCount). */
  function MaxCount(impls: seq<DpImplementation>): (r: int)
    requires impls != []
    ensures forall i :: 0 <= i < |impls| ==> InjectionsCount(impls[i]) <= r
    ensures exists i :: 0 <= i < |impls| && InjectionsCount(impls[i]) == r
  {
    if |impls| == 1 then InjectionsCount(impls[0])
    else
      var m := MaxCount(impls[1..]);
      assert forall i :: 1 <= i < |impls| ==> impls[i] == impls[1..][i - 1];
      if InjectionsCount(impls[0]) > m then InjectionsCount(impls[0]) else m
  }

  /** The ranked variants of the base implementations of one binding. */
  function Ranked(binding: BindingId, impls: seq<DpImplementation>, variants: DpImplementation -> seq<DpImplementation>)
    : Result<seq<DpImplementation>, BuildError>
  {
    var ordinals := WithOrdinal(impls);
    if ordinals != [] then
      Success(Flatten(VariantsByCount(StableSortBy(ordinals, ConstructorOrdinal), variants)))
    else
      var all := AllVariants(impls, variants);
      if all == [] then Failure(NoVariants(binding))
      else Success(StableSortBy(all, RankKey(MaxCount(all))))
  }

  /** With explicit ordinals, only the ordinal constructors take part, in
      ascending order of ordinal. */
  lemma OrdinalOrder(impls: seq<DpImplementation>)
    ensures var sorted := StableSortBy(WithOrdinal(impls), ConstructorOrdinal);
      && (forall x :: x in sorted <==> x in impls && x.ctor.ordinal.Some?)
      && (forall i, j :: 0 <= i < j < |sorted| ==> sorted[i].ctor.ordinal.GetOr(0) <= sorted[j].ctor.ordinal.GetOr(0))
  {
    var w := WithOrdinal(impls);
    var sorted := StableSortBy(w, ConstructorOrdinal);
    forall x ensures x in sorted <==> x in w {
      assert x in sorted <==> x in multiset(sorted);
      assert x in w <==> x in multiset(w);
    }
    forall i, j | 0 <= i < j < |sorted| ensures sorted[i].ctor.ordinal.GetOr(0) <= sorted[j].ctor.ordinal.GetOr(0) {
      assert KeyLe(ConstructorOrdinal(sorted[i]), ConstructorOrdinal(sorted[j]));
    }
  }

  /** Each constructor's group holds its variants in descending order of
      injection count. */
  lemma VariantGroupsByCount(impls: seq<DpImplementation>, variants: DpImplementation -> seq<DpImplementation>, i: nat)
    requires i < |impls|
    ensures var group := VariantsByCount(impls, variants)[i];
      && multiset(group) == multiset(variants(impls[i]))
      && forall a, b :: 0 <= a < b < |group| ==> InjectionsCount(group[a]) >= InjectionsCount(group[b])
  {
    var group := StableSortBy(variants(impls[i]), MoreInjectionsFirst);
    assert VariantsByCount(impls, variants)[i] == group;
    forall a, b | 0 <= a < b < |group| ensures InjectionsCount(group[a]) >= InjectionsCount(group[b]) {
      assert KeyLe(MoreInjectionsFirst(group[a]), MoreInjectionsFirst(group[b]));
    }
  }

  /** Without ordinals, the variants of all constructors take part, in
      descending order of injection count, ties in descending declared
      accessibility. */
  lemma CountRanking(impls: seq<DpImplementation>, variants: DpImplementation -> seq<DpImplementation>, binding: BindingId)
    requires WithOrdinal(impls) == [] && AllVariants(impls, variants) != []
    ensures var r := Ranked(binding, impls, variants);
      && r.Success?
      && multiset(r.value) == multiset(AllVariants(impls, variants))
      && forall i, j :: 0 <= i < j < |r.value| ==>
           || InjectionsCount(r.value[i]) > InjectionsCount(r.value[j])
           || (&& InjectionsCount(r.value[i]) == InjectionsCount(r.value[j])
               && r.value[i].ctor.accessibility.Value() >= r.value[j].ctor.accessibility.Value())
  {
    var all := AllVariants(impls, variants);
    var key := RankKey(MaxCount(all));
    var r := StableSortBy(all, key);
    forall i, j | 0 <= i < j < |r|
      ensures || InjectionsCount(r[i]) > InjectionsCount(r[j])
              || (InjectionsCount(r[i]) == InjectionsCount(r[j]) && r[i].ctor.accessibility.Value() >= r[j].ctor.accessibility.Value())
    {
      assert KeyLe(key(r[i]), key(r[j]));
    }
  }

  /** Without ordinals, the first variant has the most injections. */
  lemma CountRankingMaxFirst(impls: seq<DpImplementation>, variants: DpImplementation -> seq<DpImplementation>, binding: BindingId)
    requires WithOrdinal(impls) == [] && AllVariants(impls, variants) != []
    ensures var r := Ranked(binding, impls, variants);
      r.Success? && InjectionsCount(r.value[0]) == MaxCount(AllVariants(impls, variants))
  {
    var all := AllVariants(impls, variants);
    var max := MaxCount(all);
    var r := StableSortBy(all, RankKey(max));
    var k :| 0 <= k < |all| && InjectionsCount(all[k]) == max;
    assert all[k] in multiset(r);
    var m :| 0 <= m < |r| && r[m] == all[k];
    assert r[0] in multiset(all);
    if m > 0 {
      assert KeyLe(RankKey(max)(r[0]), RankKey(max)(r[m]));
    }
  }

  /** CreateNodes: the variants in order, numbered 0, 1, 2, ... */
  function CreateNodes(binding: MdBinding, instanceType: TypeId, impls: seq<DpImplementation>): (r: seq<DependencyNode>)
    ensures |r| == |impls|
    ensures forall i :: 0 <= i < |r| ==> r[i].variant == i && r[i].implementation == Some(impls[i])
    ensures forall i :: 0 <= i < |r| ==> r[i].binding == binding.id && r[i].lifetime == binding.lifetime
    ensures forall i :: 0 <= i < |r| ==> !r[i].factory && !r[i].arg && r[i].construct.None?
  {
    seq(|impls|, i requires 0 <= i < |impls| =>
      DependencyNode(i, binding.id, instanceType, binding.lifetime, Some(impls[i]), false, false, None))
  }

  // ---------------------------------------------------------------------------
  // Build

  /** What one binding contributes to the enumeration. */
  datatype BindingOutcome =
    | Skipped
    | BrokenOff
    | Emitted(nodes: seq<DependencyNode>)
    | Thrown(error: BuildError)

  function BaseImplementations(binding: BindingId, ctors: seq<DpMethod>, lists: MemberLists): (r: seq<DpImplementation>)
    ensures |r| == |ctors|
    ensures forall i :: 0 <= i < |r| ==> r[i] == DpImplementation(binding, ctors[i], lists.methods, lists.properties, lists.fields)
  {
    seq(|ctors|, i requires 0 <= i < |ctors| => DpImplementation(binding, ctors[i], lists.methods, lists.properties, lists.fields))
  }

  /** The nodes of one binding, or why there are none. */
  function BindingNodes(setup: MdSetup, variants: DpImplementation -> seq<DpImplementation>, b: MdBinding): (r: BindingOutcome)
    ensures b.implementation.None? ==> r == Skipped
    ensures b.implementation.Some? && b.implementation.value.typeSymbol.OtherType? ==> r == BrokenOff
    ensures b.implementation.Some? && b.implementation.value.typeSymbol.NamedType? ==> r != Skipped && r != BrokenOff
    ensures b.implementation.Some? && b.implementation.value.typeSymbol.NamedType? && b.implementation.value.typeSymbol.isAbstract ==>
      r == Thrown(AbstractType(b.id))
    ensures b.implementation.Some? ==> var t := b.implementation.value.typeSymbol;
      (t.NamedType? && !t.isAbstract && AccessibleCount(t.constructors) == 0 && Constructors(setup, t.constructors).Success?) ==>
        r == Thrown(NoAccessibleConstructor(b.id))
    ensures r.Emitted? ==> forall i :: 0 <= i < |r.nodes| ==> r.nodes[i].variant == i && r.nodes[i].binding == b.id
  {
    match b.implementation
    case None => Skipped
    case Some(implementation) =>
      match implementation.typeSymbol
      case OtherType => BrokenOff
      case NamedType(isAbstract, cs, ms) =>
        if isAbstract then Thrown(AbstractType(b.id))
        else
          match Constructors(setup, cs)
          case Failure(e) => Thrown(e)
          case Success(ctors) =>
            if ctors == [] then Thrown(NoAccessibleConstructor(b.id))
            else
              match Members(setup, ms)
              case Failure(e) => Thrown(e)
              case Success(lists) =>
                match Ranked(b.id, BaseImplementations(b.id, ctors, lists), variants)
                case Failure(e) => Thrown(e)
                case Success(impls) => Emitted(CreateNodes(b, implementation.instanceType, impls))
  }

  method BuildBinding(setup: MdSetup, variants: DpImplementation -> seq<DpImplementation>, b: MdBinding) returns (o: BindingOutcome)
    ensures o == BindingNodes(setup, variants, b)
  {
    if b.implementation.None? {
      return Skipped;
    }
    var implementation := b.implementation.value;
    if implementation.typeSymbol.OtherType? {
      return BrokenOff;
    }
    if implementation.typeSymbol.isAbstract {
      return Thrown(AbstractType(b.id));
    }
    var ctors := CollectConstructors(setup, implementation.typeSymbol.constructors);
    if ctors.Failure? {
      return Thrown(ctors.error);
    }
    if ctors.value == [] {
      return Thrown(NoAccessibleConstructor(b.id));
    }
    var lists := CollectMembers(setup, implementation.typeSymbol.members);
    if lists.Failure? {
      return Thrown(lists.error);
    }
    var ranked := Ranked(b.id, BaseImplementations(b.id, ctors.value, lists.value), variants);
    if ranked.Failure? {
      return Thrown(ranked.error);
    }
    o := Emitted(CreateNodes(b, implementation.instanceType, ranked.value));
  }

  /** How the enumeration ended: it ran through, stopped at a binding whose
      implementation is not a named type, or threw. */
  datatype Ending = Finished | Stopped | Threw(error: BuildError)

  /** The nodes yielded, in order, and how the enumeration ended. */
  datatype Built = Built(nodes: seq<DependencyNode>, ending: Ending)

  /** The enumeration after one binding's outcome, given that of the rest. */
  function Continue(o: BindingOutcome, rest: Built): Built {
    match o
    case Skipped => rest
    case BrokenOff => Built([], Stopped)
    case Thrown(e) => Built([], Threw(e))
    case Emitted(ns) => Yielded(ns, rest)
  }

  function BuildFrom(setup: MdSetup, variants: DpImplementation -> seq<DpImplementation>, bs: seq<MdBinding>): Built {
    if bs == [] then Built([], Finished)
    else Continue(BindingNodes(setup, variants, bs[0]), BuildFrom(setup, variants, bs[1..]))
  }

  function Yielded(ns: seq<DependencyNode>, rest: Built): Built {
    Built(ns + rest.nodes, rest.ending)
  }

  /** The enumeration ra, continued with rb when ra ran through. */
  function Then(ra: Built, rb: Built): Built {
    if ra.ending == Finished then Yielded(ra.nodes, rb) else ra
  }

  lemma ContinueThen(o: BindingOutcome, ra: Built, rb: Built)
    ensures Continue(o, Then(ra, rb)) == Then(Continue(o, ra), rb)
  {
    if o.Emitted? && ra.ending == Finished {
      assert o.nodes + (ra.nodes + rb.nodes) == (o.nodes + ra.nodes) + rb.nodes;
    }
  }

  /** The enumeration over a + b is that over a, continued with that over b
      when a ran through. */
  lemma {:induction false} BuildAppend(setup: MdSetup, variants: DpImplementation -> seq<DpImplementation>, a: seq<MdBinding>, b: seq<MdBinding>)
    ensures BuildFrom(setup, variants, a + b) == Then(BuildFrom(setup, variants, a), BuildFrom(setup, variants, b))
  {
    if a == [] {
      assert a + b == b;
    } else {
      assert (a + b)[0] == a[0] && (a + b)[1..] == a[1..] + b;
      BuildAppend(setup, variants, a[1..], b);
      ContinueThen(BindingNodes(setup, variants, a[0]), BuildFrom(setup, variants, a[1..]), BuildFrom(setup, variants, b));
    }
  }

  /** A binding whose implementation type is not a named type ends the
      enumeration: the bindings after it yield nothing. */
  lemma StopsAtUnnamedType(setup: MdSetup, variants: DpImplementation -> seq<DpImplementation>,
                           a: seq<MdBinding>, b: MdBinding, c: seq<MdBinding>)
    requires b.implementation.Some? && b.implementation.value.typeSymbol.OtherType?
    ensures var ra := BuildFrom(setup, variants, a);
      BuildFrom(setup, variants, a + [b] + c) == if ra.ending == Finished then Built(ra.nodes, Stopped) else ra
  {
    BuildAppend(setup, variants, a + [b], c);
    BuildAppend(setup, variants, a, [b]);
    assert [b][1..] == [];
    var ra := BuildFrom(setup, variants, a);
    assert ra.nodes + [] == ra.nodes;
  }

  /** Bindings without an implementation yield nothing and do not end the enumeration. */
  lemma SkipsBindingsWithoutImplementation(setup: MdSetup, variants: DpImplementation -> seq<DpImplementation>,
                                           a: seq<MdBinding>, b: MdBinding, c: seq<MdBinding>)
    requires b.implementation.None?
    ensures BuildFrom(setup, variants, a + [b] + c) == BuildFrom(setup, variants, a + c)
  {
    BuildAppend(setup, variants, a + [b], c);
    BuildAppend(setup, variants, a, [b]);
    BuildAppend(setup, variants, a, c);
    assert [b][1..] == [];
    var ra := BuildFrom(setup, variants, a);
    assert ra.nodes + [] == ra.nodes;
  }

  /** The Build loop: yields the nodes of each binding in turn. */
  lemma BuildFromStep(setup: MdSetup, variants: DpImplementation -> seq<DpImplementation>, bs: seq<MdBinding>, i: nat)
    requires i < |bs|
    ensures BuildFrom(setup, variants, bs[i..])
         == Continue(BindingNodes(setup, variants, bs[i]), BuildFrom(setup, variants, bs[i + 1..]))
  {
    assert bs[i..][0] == bs[i] && bs[i..][1..] == bs[i + 1..];
  }

  /** One step of the Build loop: the nodes yielded so far, followed by one
      binding's outcome and the enumeration of the rest. */
  lemma YieldedContinue(nodes: seq<DependencyNode>, o: BindingOutcome, rest: Built)
    ensures o.Skipped? ==> Yielded(nodes, Continue(o, rest)) == Yielded(nodes, rest)
    ensures o.BrokenOff? ==> Yielded(nodes, Continue(o, rest)) == Built(nodes, Stopped)
    ensures o.Thrown? ==> Yielded(nodes, Continue(o, rest)) == Built(nodes, Threw(o.error))
    ensures o.Emitted? ==> Yielded(nodes, Continue(o, rest)) == Yielded(nodes + o.nodes, rest)
  {
    assert nodes + [] == nodes;
    if o.Emitted? {
      assert nodes + (o.nodes + rest.nodes) == (nodes + o.nodes) + rest.nodes;
    }
  }

  method Build(setup: MdSetup, variants: DpImplementation -> seq<DpImplementation>) returns (built: Built)
    ensures built == BuildFrom(setup, variants, setup.bindings)
  {
    var bs := setup.bindings;
    var nodes: seq<DependencyNode> := [];
    var i := 0;
    assert bs[0..] == bs;
    assert [] + BuildFrom(setup, variants, bs).nodes == BuildFrom(setup, variants, bs).nodes;
    while i < |bs|
      invariant i <= |bs| && BuildFrom(setup, variants, bs) == Yielded(nodes, BuildFrom(setup, variants, bs[i..]))
    {
      var o := BuildBinding(setup, variants, bs[i]);
      BuildFromStep(setup, variants, bs, i);
      ghost var rest := BuildFrom(setup, variants, bs[i + 1..]);
      YieldedContinue(nodes, o, rest);
      if o.BrokenOff? {
        return Built(nodes, Stopped);
      } else if o.Thrown? {
        return Built(nodes, Threw(o.error));
      } else if o.Emitted? {
        nodes := nodes + o.nodes;
      }
      i := i + 1;
    }
    assert bs[i..] == [];
    assert nodes + [] == nodes;
    built := Built(nodes, Finished);
  }
}
