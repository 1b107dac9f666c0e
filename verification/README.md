# Convert method to property — a Dafny model

This project models CodeCracker's "convert method to property" code fix for C#.
The fix turns a parameterless, non-void method declaration into a read-only property with the same return type, name and modifiers.
It receives the method that the analyzer located and every place the method's symbol is referenced.
It groups those references by document.
If any reference lies in the declaring document, it gives up with `NotImplementedException`.
Otherwise it builds the property and splices it into the declaring document where the method stood.
The result is a new solution whose only change is that document's tree.

The property is built according to the method's body shape:

- an expression-bodied method (`int Foo() => e;`) becomes an expression-bodied property (`int Foo => e`): the expression is copied, but the method's closing semicolon token is not;
- a block-bodied method (`int Foo() { ... }`) becomes `int Foo { get { ... } }`, with the block moved unchanged into the single getter;
- a method with no body (`abstract int Foo();`, or `int Foo();` in an interface) becomes `int Foo { get; }`.

The expression body is examined first.
A method carrying both kinds of body is converted as expression-bodied.

Modules, one per component:

- `Wrappers` (wrappers.dfy): `Option` for nullable syntax slots and `Result` for an outcome that may fail.
- `Syntax` (syntax.dfy): method, accessor and property declarations, plus the shape predicates used in the contracts (well-formed, read-only, bodiless).
- `References` (references.dfy): reference locations, the group-by-document step and the lookup of the declaring document's group.
- `Transformer` (transformer.dfy): construction of the property from the method, and its inverse on getter-only properties.
- `CodeFix` (codefix.dfy): the reference gate, the splice into the declaring document and the new solution.
- `Scenarios` (scenarios.dfy): the conversions that the repository's tests expect, as concrete cases.

The model follows what the code does, including where the code falls short of its evident intent.
The TODO list at the end of the test file (test/CSharp/CodeCracker.Test/Refactoring/ConvertMethodToPropertyTest.cs:248-253) names "Change references" as work still to do.
The code indeed does not rewrite call sites: it fails only for a reference in the declaring document, and leaves every other document as it was, still invoking the method (`CallSitesNotRewritten`).
The property is built from the return type, identifier and modifiers only.
The method's attribute lists, explicit interface specifier and parameter list are therefore not carried over (`ToProperty`, `DroppedParts`).

## Model

| member | source | states |
|---|---|---|
| References.GroupByDocument | src/CSharp/CodeCracker/Refactoring/ConvertMethodToPropertyCodeFixProvider.cs:44 | The result groups the locations by document: one group per document that holds a location, no document twice, every group non-empty and holding exactly its document's locations in their original order, groups in order of first appearance |
| References.FindGroup | src/CSharp/CodeCracker/Refactoring/ConvertMethodToPropertyCodeFixProvider.cs:51 | A group is found exactly when the document is among the groups' keys, and the group found has that key and is one of the groups |
| References.FindGroupOfGrouping | src/CSharp/CodeCracker/Refactoring/ConvertMethodToPropertyCodeFixProvider.cs:44-53 | Looking up a document among the grouped references succeeds if and only if some reference lies in that document, and the group found holds exactly that document's references |
| Transformer.GetAccessor | src/CSharp/CodeCracker/Refactoring/ConvertMethodToPropertyCodeFixProvider.cs:59-63 | The accessor is a `get` whose body is the given block, and it ends in a semicolon exactly when there is no block |
| Transformer.ToProperty | src/CSharp/CodeCracker/Refactoring/ConvertMethodToPropertyCodeFixProvider.cs:55-76 | The property keeps the return type, identifier and modifiers and gets no attributes, explicit interface specifier or trivia. It is well formed and read-only and never has a setter. An expression body is copied with no accessor list. Otherwise the accessor list is exactly one `get` holding the method's block, with a semicolon exactly when the block is absent. The property is bodiless exactly when the method is |
| Transformer.WithTriviaFrom | src/CSharp/CodeCracker/Refactoring/ConvertMethodToPropertyCodeFixProvider.cs:77 | The node takes the method's trivia and is otherwise unchanged |
| Transformer.ConversionRoundTrip | src/CSharp/CodeCracker/Refactoring/ConvertMethodToPropertyCodeFixProvider.cs:55-77 | For a method with at most one body, no parameters, no attributes and no explicit interface specifier, the spliced property is getter-only and the method can be read back from it unchanged |
| Transformer.ConversionOnto | src/CSharp/CodeCracker/Refactoring/ConvertMethodToPropertyCodeFixProvider.cs:55-77 | Every getter-only property is what converting some convertible method produces |
| Transformer.ConversionInjective | src/CSharp/CodeCracker/Refactoring/ConvertMethodToPropertyCodeFixProvider.cs:55-77 | Distinct convertible methods give distinct properties |
| Transformer.DroppedParts | src/CSharp/CodeCracker/Refactoring/ConvertMethodToPropertyCodeFixProvider.cs:55 | The property does not depend on the method's attribute lists, explicit interface specifier or parameters, so methods differing only in those give the same property |
| Transformer.ExpressionBodyWins | src/CSharp/CodeCracker/Refactoring/ConvertMethodToPropertyCodeFixProvider.cs:57-76 | When a method has both a block and an expression body, the block is ignored and the property is expression-bodied |
| CodeFix.ReplaceMember | src/CSharp/CodeCracker/Refactoring/ConvertMethodToPropertyCodeFixProvider.cs:77 | The document keeps its length, the given position holds the new member and every other member is unchanged |
| CodeFix.WithDocumentRoot | src/CSharp/CodeCracker/Refactoring/ConvertMethodToPropertyCodeFixProvider.cs:84 | The solution keeps its documents, the given document gets the new tree and every other document is unchanged |
| CodeFix.UpdateMainDocument | src/CSharp/CodeCracker/Refactoring/ConvertMethodToPropertyCodeFixProvider.cs:49-86 | The conversion fails (with `NotImplemented`) exactly when the declaring document has a group of references. On success the solution keeps its documents and every other document is unchanged. The declaring document keeps its member count, its other members are unchanged, and the method's position holds the converted property carrying the method's trivia |
| CodeFix.MakeMethodProperty | src/CSharp/CodeCracker/Refactoring/ConvertMethodToPropertyCodeFixProvider.cs:35-46 | On the raw reference locations, the fix fails exactly when some location lies in the declaring document, and on success it converts as stated for `UpdateMainDocument` |
| CodeFix.CallSitesNotRewritten | src/CSharp/CodeCracker/Refactoring/ConvertMethodToPropertyCodeFixProvider.cs:84 | After a successful conversion, every document holding a reference is a different document from the declaring one and is left exactly as it was |
| CodeFix.ConversionReversible | src/CSharp/CodeCracker/Refactoring/ConvertMethodToPropertyCodeFixProvider.cs:49-86 | For a convertible method with no reference in its own document, the conversion succeeds, and turning the new property back into a method gives back the original solution |
| CodeFix.ConvertedMemberIsReadOnlyProperty | src/CSharp/CodeCracker/Refactoring/ConvertMethodToPropertyCodeFixProvider.cs:55-77 | After a successful fix, the method's position holds a well-formed, read-only property without a setter, and no longer a method |
| Scenarios.BlockBodiedMethod | test/CSharp/CodeCracker.Test/Refactoring/ConvertMethodToPropertyTest.cs:131-164 | `public int Foo() { return 10; }` becomes `public int Foo { get { return 10; } }` |
| Scenarios.AbstractMethod | test/CSharp/CodeCracker.Test/Refactoring/ConvertMethodToPropertyTest.cs:167-191 | `public abstract int Foo();` becomes `public abstract int Foo {get;}` |
| Scenarios.InterfaceMethod | test/CSharp/CodeCracker.Test/Refactoring/ConvertMethodToPropertyTest.cs:194-218 | The interface member `int Foo();` becomes `int Foo {get;}` |
| Scenarios.ExpressionBodiedMethod | test/CSharp/CodeCracker.Test/Refactoring/ConvertMethodToPropertyTest.cs:221-245 | The test's `internal static int Foo() => return 9 * 7;` becomes an `internal static` property `Foo` whose expression body is `return 9 * 7`, copied as opaque text, with no accessor list |
| Scenarios.ReferencesDecideTheOutcome | src/CSharp/CodeCracker/Refactoring/ConvertMethodToPropertyCodeFixProvider.cs:44-53 | A reference in the declaring document makes the fix fail. References only in another document let it succeed and leave that document unchanged |

## Left out

- Fetching the syntax root and semantic model, resolving the declared symbol and the reference search (lines 37-43) are host services. The model takes the located method (a document and a member position) and the list of reference locations as inputs.
- The cast of the node at the diagnostic span to a method declaration (line 39) becomes the precondition `MethodAt`. The code would throw an invalid-cast exception on any other node.
- The containing type's name is fetched but never used (line 42), so it is not modelled.
- Cancellation tokens and `ConfigureAwait` concern host concurrency and carry no logic.
- Registration of the fix, its title, the export attribute, the fixable diagnostic ids and the batch fixer (lines 20-33) are framework wiring.
- `Formatter.Annotation` and whitespace layout are delegated to the Roslyn formatter. Trivia is an opaque value that is copied.
- The semicolon token that ends an expression-bodied or bodiless method has no slot in the model. The code does not copy it to the property (line 75 sets only the expression body), and the formatter does not add it. The semicolon the code adds itself, on the bodiless `get` accessor (line 62), is modelled.
- The method's type-parameter list and constraint clauses have no slot in the model. Line 55 drops them as it drops the parameter list; only the analyzer keeps generic methods from reaching the fix.
- The eligibility analyzer (no parameters, not generic, not async, not overloaded, not void) is not part of this model. Its "no parameters" rule appears only as part of `Convertible`, the precondition of the round-trip lemmas.
- A document is a flat sequence of members. Namespaces and type declarations around the method are not modelled: `ReplaceNode` touches only the one node, so the surrounding nesting plays no part.
- Roslyn compares documents by object identity; the model compares them by `DocumentId`.
- The code does not rewrite call sites and does not commit several documents at once. Neither is modelled beyond the fact that other documents are left unchanged.
