/** The declaration transformer: builds the property that replaces a method.
    Return type, identifier and modifiers are carried over; the body becomes
    either the property's expression body or the body of a single `get`
    accessor. */
module Transformer {
  import opened Wrappers
  import opened Syntax

  /** The `get` accessor wrapping a method's block. A method without a block
      (abstract, extern or interface member) gives `get;`. */
  function GetAccessor(body: Option<Block>): (a: Accessor)
    ensures a.kind == Get && a.body == body
    ensures a.WellFormed()
  {
    var accessor := Accessor(Get, body, false);
    if body.None? then accessor.(hasSemicolon := true) else accessor
  }

  /** The property built from a method before it takes the method's trivia.
      It is made from the return type, identifier and modifiers alone, so the
      method's attribute lists and explicit interface specifier are not carried
      over, and neither is the semicolon token that ends an expression-bodied
      method. The expression body is looked at first: when a method has one,
      the property gets it and no accessor list, whatever the block. */
  function ToProperty(m: MethodDecl): (p: PropertyDecl)
    ensures p.returnType == m.returnType && p.identifier == m.identifier
    ensures p.modifiers == m.modifiers
    ensures p.attributes == [] && p.explicitInterface.None? && p.trivia == NoTrivia
    ensures p.WellFormed() && p.IsReadOnly() && !p.HasAccessor(Set)
    ensures m.exprBody.Some? ==> p.exprBody == m.exprBody && p.accessors.None?
    ensures m.exprBody.None? ==>
              && p.exprBody.None?
              && p.accessors.Some? && |p.accessors.value| == 1
              && p.accessors.value[0].kind == Get
              && p.accessors.value[0].body == m.body
              && (p.accessors.value[0].hasSemicolon <==> m.body.None?)
    ensures p.IsBodiless() <==> m.IsBodiless()
  {
    var propertyWithoutBody := PropertyDecl([], m.modifiers, m.returnType, None, m.identifier, None, None, NoTrivia);
    if m.exprBody.None? then
      var p := propertyWithoutBody.(accessors := Some([GetAccessor(m.body)]));
      assert p.accessors.value[0].kind == Get;
      p
    else
      propertyWithoutBody.(exprBody := m.exprBody)
  }

  /** A node that takes over the leading and trailing trivia of `m`. */
  function WithTriviaFrom(p: PropertyDecl, m: MethodDecl): (q: PropertyDecl)
    ensures q.trivia == m.trivia
    ensures q.(trivia := p.trivia) == p
  {
    p.(trivia := m.trivia)
  }

  /** The property that is spliced in where the method stood. */
  function ConvertedProperty(m: MethodDecl): PropertyDecl {
    WithTriviaFrom(ToProperty(m), m)
  }

  /** The parameterless method a getter-only property stands for: the getter's
      block (or the expression body) becomes the method body. */
  function AsMethod(p: PropertyDecl): MethodDecl {
    var body := if p.accessors.Some? && |p.accessors.value| > 0 then p.accessors.value[0].body else None;
    MethodDecl(p.attributes, p.modifiers, p.returnType, p.explicitInterface, p.identifier, [], body, p.exprBody, p.trivia)
  }

  /** A method the conversion can be undone for: at most one body, no
      parameters (the eligibility rule), and neither attribute lists nor an
      explicit interface specifier, which the property built here does not
      receive. */
  predicate Convertible(m: MethodDecl) {
    m.WellShaped() && m.parameters == [] && m.attributes == [] && m.explicitInterface.None?
  }

  /** A property shaped the way the conversion shapes them: an expression body,
      or a single `get` accessor, with no attribute lists and no explicit
      interface specifier. */
  predicate GetterOnly(p: PropertyDecl) {
    && p.WellFormed()
    && p.attributes == []
    && p.explicitInterface.None?
    && (p.accessors.Some? ==> |p.accessors.value| == 1 && p.accessors.value[0].kind == Get)
  }

  /** Nothing of a convertible method is lost: the method can be read back
      from the property that replaces it. A method outside `Convertible`
      loses its attribute lists, explicit interface specifier or parameters. */
  lemma ConversionRoundTrip(m: MethodDecl)
    requires Convertible(m)
    ensures GetterOnly(ConvertedProperty(m))
    ensures AsMethod(ConvertedProperty(m)) == m
  {
  }

  /** Every getter-only property is what converting some convertible method
      gives: the conversion maps convertible methods onto getter-only properties. */
  lemma ConversionOnto(p: PropertyDecl)
    requires GetterOnly(p)
    ensures Convertible(AsMethod(p))
    ensures ConvertedProperty(AsMethod(p)) == p
  {
    if p.accessors.Some? {
      var a := p.accessors.value[0];
      assert a.WellFormed();
      assert GetAccessor(a.body) == a;
      assert p.accessors.value == [a];
    }
  }

  /** Two convertible methods that give the same property are the same method. */
  lemma ConversionInjective(m1: MethodDecl, m2: MethodDecl)
    requires Convertible(m1) && Convertible(m2)
    requires ConvertedProperty(m1) == ConvertedProperty(m2)
    ensures m1 == m2
  {
  }

  /** The property does not depend on the method's attribute lists, explicit
      interface specifier or parameters: `int IFoo.Foo() => 1;` and
      `int Foo() => 1;` give the same property. */
  lemma DroppedParts(m: MethodDecl)
    ensures ToProperty(m) == ToProperty(m.(attributes := [], explicitInterface := None, parameters := []))
  {
  }

  /** When a method carries both a block and an expression body, the
      expression body wins and the block is dropped. */
  lemma ExpressionBodyWins(m: MethodDecl)
    requires m.body.Some? && m.exprBody.Some?
    ensures ToProperty(m) == ToProperty(m.(body := None))
    ensures ToProperty(m).exprBody == m.exprBody && ToProperty(m).accessors.None?
  {
  }
}
