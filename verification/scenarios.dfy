/** The conversions the repository's tests expect, written as concrete
    solutions: one document holding one type whose single member is the
    method. */
module Scenarios {
  import opened Wrappers
  import opened Syntax
  import opened References
  import opened Transformer
  import opened CodeFix

  const Declaring := DocumentId(0)
  const Other := DocumentId(1)
  const IntType := TypeRef("int")
  const Foo := Identifier("Foo")
  const Layout := Trivia("            ", "\n")

  /** The solution with `member` alone in the declaring document and an
      unrelated second document. */
  function SolutionWith(member: Member): Solution {
    map[Declaring := [member], Other := [OtherMember("void Bar() { }")]]
  }

  /** With no references, converting the only member of the declaring
      document puts the converted property in its place and nothing else. */
  lemma LoneMethodBecomes(m: MethodDecl, p: PropertyDecl)
    requires ConvertedProperty(m) == p
    ensures MakeMethodProperty(SolutionWith(Method(m)), Declaring, 0, []) == Success(SolutionWith(Property(p)))
  {
    var before := SolutionWith(Method(m));
    var r := MakeMethodProperty(before, Declaring, 0, []);
    assert r.Success?;
    var after := r.value;
    assert after[Declaring] == [Property(p)];
    assert after[Other] == before[Other];
    assert after == SolutionWith(Property(p));
  }

  /** `public int Foo() { return 10; }` becomes `public int Foo { get { return 10; } }`. */
  lemma BlockBodiedMethod()
    ensures
      var block := Block([Statement("return 10;")]);
      var m := MethodDecl([], [Public], IntType, None, Foo, [], Some(block), None, Layout);
      var p := PropertyDecl([], [Public], IntType, None, Foo, Some([Accessor(Get, Some(block), false)]), None, Layout);
      MakeMethodProperty(SolutionWith(Method(m)), Declaring, 0, []) == Success(SolutionWith(Property(p)))
  {
    var block := Block([Statement("return 10;")]);
    var m := MethodDecl([], [Public], IntType, None, Foo, [], Some(block), None, Layout);
    var p := PropertyDecl([], [Public], IntType, None, Foo, Some([Accessor(Get, Some(block), false)]), None, Layout);
    LoneMethodBecomes(m, p);
  }

  /** `public abstract int Foo();` becomes `public abstract int Foo {get;}`. */
  lemma AbstractMethod()
    ensures
      var m := MethodDecl([], [Public, Abstract], IntType, None, Foo, [], None, None, Layout);
      var p := PropertyDecl([], [Public, Abstract], IntType, None, Foo, Some([Accessor(Get, None, true)]), None, Layout);
      MakeMethodProperty(SolutionWith(Method(m)), Declaring, 0, []) == Success(SolutionWith(Property(p)))
  {
    var m := MethodDecl([], [Public, Abstract], IntType, None, Foo, [], None, None, Layout);
    var p := PropertyDecl([], [Public, Abstract], IntType, None, Foo, Some([Accessor(Get, None, true)]), None, Layout);
    LoneMethodBecomes(m, p);
  }

  /** The interface member `int Foo();` becomes `int Foo {get;}`. */
  lemma InterfaceMethod()
    ensures
      var m := MethodDecl([], [], IntType, None, Foo, [], None, None, Layout);
      var p := PropertyDecl([], [], IntType, None, Foo, Some([Accessor(Get, None, true)]), None, Layout);
      MakeMethodProperty(SolutionWith(Method(m)), Declaring, 0, []) == Success(SolutionWith(Property(p)))
  {
    var m := MethodDecl([], [], IntType, None, Foo, [], None, None, Layout);
    var p := PropertyDecl([], [], IntType, None, Foo, Some([Accessor(Get, None, true)]), None, Layout);
    LoneMethodBecomes(m, p);
  }

  /** The test expects `internal static int Foo() => return 9 * 7;` to become
      `internal static int Foo => return 9 * 7;`: the property keeps the
      modifiers and receives the expression, copied as opaque text, with no
      accessor list. The closing semicolon has no slot in the model. */
  lemma ExpressionBodiedMethod()
    ensures
      var e := Expr("return 9 * 7");
      var m := MethodDecl([], [Internal, Static], IntType, None, Foo, [], None, Some(e), Layout);
      var p := PropertyDecl([], [Internal, Static], IntType, None, Foo, None, Some(e), Layout);
      MakeMethodProperty(SolutionWith(Method(m)), Declaring, 0, []) == Success(SolutionWith(Property(p)))
  {
    var e := Expr("return 9 * 7");
    var m := MethodDecl([], [Internal, Static], IntType, None, Foo, [], None, Some(e), Layout);
    var p := PropertyDecl([], [Internal, Static], IntType, None, Foo, None, Some(e), Layout);
    LoneMethodBecomes(m, p);
  }

  /** A call in the declaring document stops the conversion; a call in the
      other document does not, and that document is left calling `Foo()`. */
  lemma ReferencesDecideTheOutcome()
    ensures
      var m := MethodDecl([], [Public], IntType, None, Foo, [], Some(Block([Statement("return 10;")])), None, Layout);
      var sameDocument := [ReferenceLocation(Other, 4), ReferenceLocation(Declaring, 12)];
      var otherDocument := [ReferenceLocation(Other, 4), ReferenceLocation(Other, 9)];
      && MakeMethodProperty(SolutionWith(Method(m)), Declaring, 0, sameDocument) == Failure(NotImplemented)
      && MakeMethodProperty(SolutionWith(Method(m)), Declaring, 0, otherDocument).Success?
      && MakeMethodProperty(SolutionWith(Method(m)), Declaring, 0, otherDocument).value[Other]
         == SolutionWith(Method(m))[Other]
  {
  }
}
