/** What the code graph walker reports to its visit callbacks. The callbacks
    (VisitConstructor, VisitField, VisitFactory, ...) are empty hooks in the
    walker itself; each call is recorded here as an event, so that a walk is
    described by the sequence of events it produces. */
module Visits {
  import opened Models
  import opened Sorting
  import opened Graphs

  /** A member visited after construction, with its ordinal. */
  datatype MemberRef = FieldRef(index: nat) | PropertyRef(index: nat) | MethodRef(index: nat)

  datatype MemberVisit = MemberVisit(member: MemberRef, ordinal: Option<int>)

  /** One call of a visit callback. */
  datatype Event =
    | ConstructorVisited(target: Variable, requiredFields: seq<MemberVisit>, requiredProperties: seq<MemberVisit>)
    | MemberVisited(target: Variable, visit: MemberVisit)
    | FactoryVisited(target: Variable)
    | ArgVisited(target: Variable)
    | ConstructVisited(kind: ConstructKind, target: Variable)

  /** The callback VisitInstantiation selects for a node. */
  datatype Handler =
    | ImplementationHandler(implementation: DpImplementation)
    | FactoryHandler
    | ArgHandler
    | ConstructHandler(kind: ConstructKind)
    | NoHandler

  /** The fixed priority of VisitInstantiation: Implementation, then Factory,
      then Arg, then the construct kind. */
  function Dispatch(node: DependencyNode): (h: Handler)
    ensures h.ImplementationHandler? <==> node.implementation.Some?
    ensures h.ImplementationHandler? ==> h.implementation == node.implementation.value
    ensures h.FactoryHandler? <==> node.implementation.None? && node.factory
    ensures h.ArgHandler? <==> node.implementation.None? && !node.factory && node.arg
    ensures h.ConstructHandler? <==> node.implementation.None? && !node.factory && !node.arg && node.construct.Some?
    ensures h.ConstructHandler? ==> h.kind == node.construct.value
  {
    if node.implementation.Some? then ImplementationHandler(node.implementation.value)
    else if node.factory then FactoryHandler
    else if node.arg then ArgHandler
    else if node.construct.Some? then ConstructHandler(node.construct.value)
    else NoHandler
  }

  /** The first n fields, as visits, that are required (wanted) or not (!wanted). */
  function FieldVisits(fields: seq<DpField>, n: nat, wanted: bool): (r: seq<MemberVisit>)
    requires n <= |fields|
    ensures forall v :: v in r <==> exists i :: 0 <= i < n && fields[i].isRequired == wanted && v == MemberVisit(FieldRef(i), fields[i].ordinal)
  {
    if n == 0 then []
    else
      FieldVisits(fields, n - 1, wanted)
      + (if fields[n - 1].isRequired == wanted then [MemberVisit(FieldRef(n - 1), fields[n - 1].ordinal)] else [])
  }

  /** Required or init-only properties are set at construction. */
  predicate SetAtConstruction(p: DpProperty) {
    p.isRequired || p.isInitOnly
  }

  function PropertyVisits(properties: seq<DpProperty>, n: nat, wanted: bool): (r: seq<MemberVisit>)
    requires n <= |properties|
    ensures forall v :: v in r <==> exists i :: 0 <= i < n && SetAtConstruction(properties[i]) == wanted && v == MemberVisit(PropertyRef(i), properties[i].ordinal)
  {
    if n == 0 then []
    else
      PropertyVisits(properties, n - 1, wanted)
      + (if SetAtConstruction(properties[n - 1]) == wanted then [MemberVisit(PropertyRef(n - 1), properties[n - 1].ordinal)] else [])
  }

  function MethodVisits(methods: seq<DpMethod>, n: nat): (r: seq<MemberVisit>)
    requires n <= |methods|
    ensures forall v :: v in r <==> exists i :: 0 <= i < n && v == MemberVisit(MethodRef(i), methods[i].ordinal)
  {
    if n == 0 then [] else MethodVisits(methods, n - 1) + [MemberVisit(MethodRef(n - 1), methods[n - 1].ordinal)]
  }

  /** The sort key Ordinal ?? missing. */
  function OrdinalKey(v: MemberVisit, missing: int): Key {
    Key(v.ordinal.GetOr(missing), 0)
  }

  function RequiredFieldKey(v: MemberVisit): Key { OrdinalKey(v, IntMaxValue - 1) }

  function OrdinalOrLastKey(v: MemberVisit): Key { OrdinalKey(v, IntMaxValue) }

  function RequiredFieldsOf(impl: DpImplementation): seq<MemberVisit> {
    StableSortBy(FieldVisits(impl.fields, |impl.fields|, true), RequiredFieldKey)
  }

  function RequiredPropertiesOf(impl: DpImplementation): seq<MemberVisit> {
    StableSortBy(PropertyVisits(impl.properties, |impl.properties|, true), OrdinalOrLastKey)
  }

  /** Optional fields, then optional properties, then methods, in declaration order. */
  function OptionalVisitsOf(impl: DpImplementation): seq<MemberVisit> {
    FieldVisits(impl.fields, |impl.fields|, false)
    + PropertyVisits(impl.properties, |impl.properties|, false)
    + MethodVisits(impl.methods, |impl.methods|)
  }

  /** The post-construction members in the order they are visited. */
  function PostConstructionVisits(impl: DpImplementation): seq<MemberVisit> {
    StableSortBy(OptionalVisitsOf(impl), OrdinalOrLastKey)
  }

  function MemberEvents(target: Variable, visits: seq<MemberVisit>): (r: seq<Event>)
    ensures |r| == |visits|
    ensures forall i :: 0 <= i < |visits| ==> r[i] == MemberVisited(target, visits[i])
  {
    if visits == [] then []
    else MemberEvents(target, visits[..|visits| - 1]) + [MemberVisited(target, visits[|visits| - 1])]
  }

  /** What VisitImplementation reports for a target that is not yet created:
      the constructor with the required members, then the post-construction
      members ordered by ordinal. */
  function ImplementationEvents(target: Variable, impl: DpImplementation): seq<Event> {
    [ConstructorVisited(target, RequiredFieldsOf(impl), RequiredPropertiesOf(impl))]
    + MemberEvents(target, PostConstructionVisits(impl))
  }

  /** The required fields passed to the constructor are exactly the required
      fields of the implementation, ordered by ordinal, a missing ordinal
      counting as int.MaxValue - 1. */
  lemma RequiredFieldsAtConstruction(impl: DpImplementation, v: MemberVisit)
    ensures v in RequiredFieldsOf(impl) <==>
      exists i :: 0 <= i < |impl.fields| && impl.fields[i].isRequired && v == MemberVisit(FieldRef(i), impl.fields[i].ordinal)
    ensures forall i, j :: 0 <= i < j < |RequiredFieldsOf(impl)| ==>
      RequiredFieldsOf(impl)[i].ordinal.GetOr(IntMaxValue - 1) <= RequiredFieldsOf(impl)[j].ordinal.GetOr(IntMaxValue - 1)
  {
    var fs := FieldVisits(impl.fields, |impl.fields|, true);
    assert v in RequiredFieldsOf(impl) <==> v in multiset(RequiredFieldsOf(impl));
    assert v in fs <==> v in multiset(fs);
  }

  /** The required properties passed to the constructor are exactly the
      required or init-only properties, ordered by ordinal, a missing ordinal
      counting as int.MaxValue. */
  lemma RequiredPropertiesAtConstruction(impl: DpImplementation, v: MemberVisit)
    ensures v in RequiredPropertiesOf(impl) <==>
      exists i :: 0 <= i < |impl.properties| && SetAtConstruction(impl.properties[i])
        && v == MemberVisit(PropertyRef(i), impl.properties[i].ordinal)
    ensures forall i, j :: 0 <= i < j < |RequiredPropertiesOf(impl)| ==>
      RequiredPropertiesOf(impl)[i].ordinal.GetOr(IntMaxValue) <= RequiredPropertiesOf(impl)[j].ordinal.GetOr(IntMaxValue)
  {
    var ps := PropertyVisits(impl.properties, |impl.properties|, true);
    assert v in RequiredPropertiesOf(impl) <==> v in multiset(RequiredPropertiesOf(impl));
    assert v in ps <==> v in multiset(ps);
  }

  /** A member is visited after construction exactly when it is a field that
      is not required, a property that is neither required nor init-only, or
      a method. */
  lemma VisitedAfterConstruction(impl: DpImplementation, v: MemberVisit)
    ensures v in PostConstructionVisits(impl) <==>
      || (exists i :: 0 <= i < |impl.fields| && !impl.fields[i].isRequired
            && v == MemberVisit(FieldRef(i), impl.fields[i].ordinal))
      || (exists i :: 0 <= i < |impl.properties| && !SetAtConstruction(impl.properties[i])
            && v == MemberVisit(PropertyRef(i), impl.properties[i].ordinal))
      || (exists i :: 0 <= i < |impl.methods| && v == MemberVisit(MethodRef(i), impl.methods[i].ordinal))
  {
    var all := OptionalVisitsOf(impl);
    assert v in PostConstructionVisits(impl) <==> v in multiset(PostConstructionVisits(impl));
    assert v in all <==> v in multiset(all);
  }

  /** After construction the members run in ordinal order; members without
      an ordinal run last. */
  lemma MembersRunInOrdinalOrder(impl: DpImplementation, i: nat, j: nat)
    requires i < j < |PostConstructionVisits(impl)|
    ensures var vs := PostConstructionVisits(impl);
      vs[i].ordinal.GetOr(IntMaxValue) <= vs[j].ordinal.GetOr(IntMaxValue)
  {
    assert KeyLe(OrdinalOrLastKey(PostConstructionVisits(impl)[i]), OrdinalOrLastKey(PostConstructionVisits(impl)[j]));
  }

  lemma {:induction false} WithKeyAppend<T>(a: seq<T>, b: seq<T>, key: T -> Key, k: Key)
    ensures WithKey(a + b, key, k) == WithKey(a, key, k) + WithKey(b, key, k)
  {
    if a != [] {
      assert (a + b)[1..] == a[1..] + b;
      WithKeyAppend(a[1..], b, key, k);
    } else {
      assert a + b == b;
    }
  }

  /** Members that share an ordinal keep their declaration order: optional
      fields first, then optional properties, then methods. */
  lemma TiesKeepDeclarationOrder(impl: DpImplementation, ordinal: int)
    ensures var k := Key(ordinal, 0);
      WithKey(PostConstructionVisits(impl), OrdinalOrLastKey, k) ==
        WithKey(FieldVisits(impl.fields, |impl.fields|, false), OrdinalOrLastKey, k)
        + WithKey(PropertyVisits(impl.properties, |impl.properties|, false), OrdinalOrLastKey, k)
        + WithKey(MethodVisits(impl.methods, |impl.methods|), OrdinalOrLastKey, k)
  {
    var k := Key(ordinal, 0);
    var fs := FieldVisits(impl.fields, |impl.fields|, false);
    var ps := PropertyVisits(impl.properties, |impl.properties|, false);
    var ms := MethodVisits(impl.methods, |impl.methods|);
    StableSortKeepsOrder(OptionalVisitsOf(impl), OrdinalOrLastKey, k);
    WithKeyAppend(fs + ps, ms, OrdinalOrLastKey, k);
    WithKeyAppend(fs, ps, OrdinalOrLastKey, k);
  }

  /** What VisitInstantiation reports for one instantiation, given the
      storages that are already created. */
  function InstantiationEvents(inst: Instantiation, created: set<Variable>): seq<Event> {
    match Dispatch(inst.target.node)
    case ImplementationHandler(impl) =>
      if inst.target.Storage() in created then [] else ImplementationEvents(inst.target, impl)
    case FactoryHandler => [FactoryVisited(inst.target)]
    case ArgHandler => [ArgVisited(inst.target)]
    case ConstructHandler(kind) => [ConstructVisited(kind, inst.target)]
    case NoHandler => []
  }

  /** What VisitBlock reports: the instantiations in order. */
  function BlockEvents(insts: seq<Instantiation>, created: set<Variable>): seq<Event> {
    if insts == [] then [] else BlockEvents(insts[..|insts| - 1], created) + InstantiationEvents(insts[|insts| - 1], created)
  }

  /** What the visiting loop of VisitRootVariable reports: the blocks in order. */
  function BlocksEvents(blocks: seq<Block>, created: set<Variable>): seq<Event> {
    if blocks == [] then []
    else BlocksEvents(blocks[..|blocks| - 1], created) + BlockEvents(blocks[|blocks| - 1].instantiations, created)
  }

  /** What VisitGraph reports: the roots in order, each with its own blocks
      and its own created storages. */
  function RootsEvents(blocks: seq<seq<Block>>, created: seq<set<Variable>>): seq<Event>
    requires |blocks| == |created|
  {
    if blocks == [] then []
    else
      var n := |blocks| - 1;
      RootsEvents(blocks[..n], created[..n]) + BlocksEvents(blocks[n], created[n])
  }
}
