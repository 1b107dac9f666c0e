/** The slice of the C# syntax tree the conversion reads and writes: method and
    property member declarations, property accessors, and the opaque pieces
    (types, blocks, expressions, trivia) that are copied without inspection. */
module Syntax {
  import opened Wrappers

  /** A type as written in a declaration, e.g. `int` or `Task<A>`. */
  datatype TypeRef = TypeRef(text: string)

  /** The identifier token that names a member. */
  datatype Identifier = Identifier(text: string)

  /** A modifier keyword; the conversion copies the whole list as it stands. */
  datatype Modifier =
    | Public | Private | Protected | Internal
    | Static | Abstract | Virtual | Override | Sealed
    | New | Extern | Unsafe | Async | Partial

  /** An attribute list such as `[Obsolete]`, kept as text. */
  datatype AttributeList = AttributeList(text: string)

  /** A formal parameter, e.g. `int b`. */
  datatype Parameter = Parameter(paramType: TypeRef, name: Identifier)

  /** A statement inside a block, kept as text: the block is moved, never read. */
  datatype Statement = Statement(text: string)

  /** A `{ ... }` block body. */
  datatype Block = Block(statements: seq<Statement>)

  /** The expression of an `=> e` expression body. */
  datatype Expr = Expr(text: string)

  /** Comments and whitespace attached before and after a node. */
  datatype Trivia = Trivia(leading: string, trailing: string)

  /** The trivia of a node built from scratch by the syntax factory. */
  const NoTrivia := Trivia("", "")

  /** A method declaration. A parsed method has at most one of a block body
      and an expression body; neither means it is abstract, extern or an
      interface member (`int Foo();`). `explicitInterface` is the `IFoo` of an
      explicit implementation `int IFoo.Foo()`. */
  datatype MethodDecl = MethodDecl(
    attributes: seq<AttributeList>,
    modifiers: seq<Modifier>,
    returnType: TypeRef,
    explicitInterface: Option<TypeRef>,
    identifier: Identifier,
    parameters: seq<Parameter>,
    body: Option<Block>,
    exprBody: Option<Expr>,
    trivia: Trivia)
  {
    /** The declaration has exactly one of: a block body, an expression body, no body. */
    predicate WellShaped() {
      !(body.Some? && exprBody.Some?)
    }

    /** Signature-only: `abstract int Foo();` or an interface's `int Foo();`. */
    predicate IsBodiless() {
      body.None? && exprBody.None?
    }
  }

  datatype AccessorKind = Get | Set

  /** A property accessor: `get { ... }` or, with no body, `get;`. */
  datatype Accessor = Accessor(kind: AccessorKind, body: Option<Block>, hasSemicolon: bool) {

    /** An accessor carries either a body or a terminating semicolon, not both. */
    predicate WellFormed() {
      body.Some? != hasSemicolon
    }
  }

  /** A property declaration: either an accessor list or an expression body. */
  datatype PropertyDecl = PropertyDecl(
    attributes: seq<AttributeList>,
    modifiers: seq<Modifier>,
    returnType: TypeRef,
    explicitInterface: Option<TypeRef>,
    identifier: Identifier,
    accessors: Option<seq<Accessor>>,
    exprBody: Option<Expr>,
    trivia: Trivia)
  {
    /** Some accessor of the list has the given kind. */
    predicate HasAccessor(kind: AccessorKind) {
      accessors.Some? && exists i :: 0 <= i < |accessors.value| && accessors.value[i].kind == kind
    }

    /** Exactly one of accessor list and expression body; a non-empty list of
        well-formed accessors with no kind repeated. */
    predicate WellFormed() {
      && accessors.Some? != exprBody.Some?
      && (accessors.Some? ==>
            && |accessors.value| > 0
            && (forall i :: 0 <= i < |accessors.value| ==> accessors.value[i].WellFormed())
            && (forall i, j :: 0 <= i < j < |accessors.value| ==>
                  accessors.value[i].kind != accessors.value[j].kind))
    }

    /** The property can be read and cannot be assigned: an expression-bodied
        property, or an accessor list with a getter and no setter. */
    predicate IsReadOnly() {
      exprBody.Some? || (HasAccessor(Get) && !HasAccessor(Set))
    }

    /** Signature-only property, as an abstract or interface member declares it:
        an accessor list in which no accessor has a body. */
    predicate IsBodiless() {
      && accessors.Some?
      && forall i :: 0 <= i < |accessors.value| ==> accessors.value[i].body.None?
    }
  }

  /** A member of a type. Members other than methods and properties are kept as text. */
  datatype Member =
    | Method(decl: MethodDecl)
    | Property(prop: PropertyDecl)
    | OtherMember(text: string)
}
