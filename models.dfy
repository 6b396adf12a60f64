/** Entities shared by the node builder, the code graph walker and the build
    tools: lifetimes, tags, injections, the implementation descriptions built
    for each binding, dependency nodes and the compile-time variables that the
    walker allocates. Roslyn symbols and types are abstracted to identifiers. */
module Models {

  datatype Option<+T> = None | Some(value: T) {
    function GetOr(default: T): T {
      match this
      case Some(v) => v
      case None => default
    }
  }

  datatype Result<+T, +E> = Success(value: T) | Failure(error: E) {
    predicate IsFailure() { Failure? }
    function PropagateFailure<U>(): Result<U, E>
      requires Failure?
    {
      Failure(error)
    }
    function Extract(): T
      requires Success?
    {
      value
    }
  }

  /** int.MaxValue of the 32-bit signed integers used for ordinals. */
  const IntMaxValue: int := 0x7fff_ffff

  type TypeId = nat
  type BindingId = nat

  /** The reuse policy of a binding. */
  datatype Lifetime = Transient | Singleton | PerResolve | PerBlock | Scoped

  /** The kinds of construct nodes (MdConstructKind). */
  datatype ConstructKind = Enumerable | Array | Span | Composition | OnCannotResolve

  /** The value of an attribute argument (a Roslyn TypedConstant's Value). */
  datatype Constant = NullConstant | IntConstant(i: int) | TypeConstant(t: TypeId) | OtherConstant(id: nat)

  /** A tag: none (null), the MdTag.ContextTag marker object, or a tag value. */
  datatype Tag = Untagged | ContextTag | TagValue(value: Constant)

  /** A request for a contract type with a tag. */
  datatype Injection = Injection(contract: TypeId, tag: Tag)

  /** Roslyn's Accessibility enumeration; Friend is an alias of Internal. */
  datatype Accessibility = NotApplicable | Private | ProtectedAndInternal | Protected | Internal | ProtectedOrInternal | Public {
    /** The numeric value of the enumeration member. */
    function Value(): int {
      match this
      case NotApplicable => 0
      case Private => 1
      case ProtectedAndInternal => 2
      case Protected => 3
      case Internal => 4
      case ProtectedOrInternal => 5
      case Public => 6
    }
  }

  /** A constructor or an ordinal-marked method with the injections of its parameters. */
  datatype DpMethod = DpMethod(accessibility: Accessibility, ordinal: Option<int>, parameters: seq<Injection>)

  datatype DpField = DpField(isRequired: bool, ordinal: Option<int>, injection: Injection)

  datatype DpProperty = DpProperty(isRequired: bool, isInitOnly: bool, ordinal: Option<int>, injection: Injection)

  /** One way of constructing an implementation: a constructor and the members to inject. */
  datatype DpImplementation = DpImplementation(
    binding: BindingId,
    ctor: DpMethod,
    methods: seq<DpMethod>,
    properties: seq<DpProperty>,
    fields: seq<DpField>)

  /** A dependency node: one variant of a binding. The optional Implementation,
      Factory, Arg and Construct parts of the source record are kept as they
      are, since the walker tests them in a fixed priority. */
  datatype DependencyNode = DependencyNode(
    variant: nat,
    binding: BindingId,
    instanceType: TypeId,
    lifetime: Lifetime,
    implementation: Option<DpImplementation>,
    factory: bool,
    arg: bool,
    construct: Option<ConstructKind>)

  /** A compile-time slot for one value. A linked variable (source is Some)
      stands for the storage of another variable: it reads and writes the
      created flag of that storage. */
  class Variable {
    const nodeId: nat
    const node: DependencyNode
    const injection: Injection
    const perLifetimeId: nat
    const source: Option<Variable>
    const isDeclared: bool
    const isBlockRoot: bool
    var created: bool

    constructor (nodeId: nat, node: DependencyNode, injection: Injection, perLifetimeId: nat,
                 isDeclared: bool, isCreated: bool, isBlockRoot: bool)
      ensures this.nodeId == nodeId && this.node == node && this.injection == injection
      ensures this.perLifetimeId == perLifetimeId && source == None
      ensures this.isDeclared == isDeclared && created == isCreated && this.isBlockRoot == isBlockRoot
    {
      this.nodeId := nodeId;
      this.node := node;
      this.injection := injection;
      this.perLifetimeId := perLifetimeId;
      this.source := None;
      this.isDeclared := isDeclared;
      this.created := isCreated;
      this.isBlockRoot := isBlockRoot;
    }

    /** CreateLinkedVariable: a new variable for another injection of the same storage. */
    constructor Linked(stored: Variable, injection: Injection)
      ensures nodeId == stored.nodeId && node == stored.node && this.injection == injection
      ensures perLifetimeId == stored.perLifetimeId && source == Some(stored)
      ensures isDeclared == stored.isDeclared && isBlockRoot == stored.isBlockRoot && !created
    {
      this.nodeId := stored.nodeId;
      this.node := stored.node;
      this.injection := injection;
      this.perLifetimeId := stored.perLifetimeId;
      this.source := Some(stored);
      this.isDeclared := stored.isDeclared;
      this.created := false;
      this.isBlockRoot := stored.isBlockRoot;
    }

    /** The object that holds this variable's flags. */
    function Storage(): Variable {
      match source
      case None => this
      case Some(s) => s
    }

    predicate IsDeclared() { Storage().isDeclared }

    predicate IsBlockRoot() { Storage().isBlockRoot }

    predicate IsCreated()
      reads Storage()
    {
      Storage().created
    }
  }
}
