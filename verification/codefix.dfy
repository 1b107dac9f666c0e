/** The code fix: group the method's references by document, refuse when one
    lies in the declaring document, and otherwise swap the method for its
    property in the declaring document and install that document in a new
    solution. */
module CodeFix {
  import opened Wrappers
  import opened Syntax
  import opened References
  import opened Transformer

  /** A document's tree, as the sequence of its members. */
  type Document = seq<Member>

  /** A solution: the tree of every document, by document identity. */
  type Solution = map<DocumentId, Document>

  /** Why a conversion produced no solution. */
  datatype ConversionError =
    /** The declaring document itself refers to the method; raised as
        `NotImplementedException`. */
    | NotImplemented

  /** `at` is the position of a method declaration in document `document`. */
  predicate MethodAt(solution: Solution, document: DocumentId, at: nat) {
    document in solution && at < |solution[document]| && solution[document][at].Method?
  }

  /** The tree with the member at `at` replaced. */
  function ReplaceMember(doc: Document, at: nat, member: Member): (r: Document)
    requires at < |doc|
    ensures |r| == |doc| && r[at] == member
    ensures forall j :: 0 <= j < |doc| && j != at ==> r[j] == doc[j]
  {
    doc[at := member]
  }

  /** The solution with one document's tree replaced. */
  function WithDocumentRoot(solution: Solution, document: DocumentId, root: Document): (r: Solution)
    requires document in solution
    ensures r.Keys == solution.Keys && r[document] == root
    ensures forall d :: d in solution && d != document ==> r[d] == solution[d]
  {
    solution[document := root]
  }

  /** `after` is `before` with the method at position `at` of `document`
      converted: same documents; every other document untouched; in the
      declaring document, the same number of members, the member at `at`
      now the property built from the method with the method's trivia, and
      every other member untouched. */
  ghost predicate ConvertedAt(before: Solution, document: DocumentId, at: nat, after: Solution)
    requires MethodAt(before, document, at)
  {
    && after.Keys == before.Keys
    && (forall d :: d in before && d != document ==> after[d] == before[d])
    && |after[document]| == |before[document]|
    && after[document][at] == Property(ConvertedProperty(before[document][at].decl))
    && (forall j :: 0 <= j < |before[document]| && j != at ==> after[document][j] == before[document][j])
  }

  /** The conversion proper, given the references grouped by document. */
  function UpdateMainDocument(solution: Solution, document: DocumentId, at: nat, documentGroups: seq<Group>)
    : (r: Result<Solution, ConversionError>)
    requires MethodAt(solution, document, at)
    ensures r.Failure? <==> document in Keys(documentGroups)
    ensures r.Failure? ==> r.error == NotImplemented
    ensures r.Success? ==> ConvertedAt(solution, document, at, r.value)
  {
    var mainDocGroup := FindGroup(documentGroups, document);
    if mainDocGroup.None? then
      var declaration := solution[document][at].decl;
      var property := ToProperty(declaration);
      var newRoot := ReplaceMember(solution[document], at, Property(WithTriviaFrom(property, declaration)));
      Success(WithDocumentRoot(solution, document, newRoot))
    else
      Failure(NotImplemented)
  }

  /** The code fix on a located method and the locations of its references. */
  function MakeMethodProperty(solution: Solution, document: DocumentId, at: nat, references: seq<ReferenceLocation>)
    : (r: Result<Solution, ConversionError>)
    requires MethodAt(solution, document, at)
    ensures r.Failure? <==> exists i :: 0 <= i < |references| && references[i].document == document
    ensures r.Success? ==> ConvertedAt(solution, document, at, r.value)
  {
    var documentGroups := GroupByDocument(references);
    FindGroupOfGrouping(references, document);
    UpdateMainDocument(solution, document, at, documentGroups)
  }

  /** A successful conversion leaves the documents holding references exactly
      as they were: their call sites keep the invocation syntax. */
  lemma CallSitesNotRewritten(solution: Solution, document: DocumentId, at: nat,
                              references: seq<ReferenceLocation>, i: nat)
    requires MethodAt(solution, document, at)
    requires i < |references| && references[i].document in solution
    requires MakeMethodProperty(solution, document, at, references).Success?
    ensures references[i].document != document
    ensures MakeMethodProperty(solution, document, at, references).value[references[i].document]
         == solution[references[i].document]
  {
  }

  /** Putting a property back as the method it stands for. */
  function RevertAt(solution: Solution, document: DocumentId, at: nat): Solution
    requires document in solution && at < |solution[document]| && solution[document][at].Property?
  {
    var doc := solution[document];
    solution[document := doc[at := Method(AsMethod(doc[at].prop))]]
  }

  /** For a convertible method the conversion can be undone exactly: turning
      the new property back into a method restores the original solution. */
  lemma ConversionReversible(solution: Solution, document: DocumentId, at: nat, documentGroups: seq<Group>)
    requires MethodAt(solution, document, at)
    requires Convertible(solution[document][at].decl)
    requires document !in Keys(documentGroups)
    ensures UpdateMainDocument(solution, document, at, documentGroups).Success?
    ensures RevertAt(UpdateMainDocument(solution, document, at, documentGroups).value, document, at) == solution
  {
    var m := solution[document][at].decl;
    var after := UpdateMainDocument(solution, document, at, documentGroups).value;
    ConversionRoundTrip(m);
    var restored := RevertAt(after, document, at);
    assert restored[document] == solution[document] by {
      assert |restored[document]| == |solution[document]|;
      forall j | 0 <= j < |solution[document]|
        ensures restored[document][j] == solution[document][j]
      {
      }
    }
    assert restored.Keys == solution.Keys;
    forall d | d in solution ensures restored[d] == solution[d] {
    }
  }

  /** After a successful conversion the method's position holds a getter-only
      property, so the declaration is no longer a method that could be
      offered for conversion again. */
  lemma ConvertedMemberIsReadOnlyProperty(solution: Solution, document: DocumentId, at: nat,
                                          references: seq<ReferenceLocation>)
    requires MethodAt(solution, document, at)
    requires MakeMethodProperty(solution, document, at, references).Success?
    ensures !MethodAt(MakeMethodProperty(solution, document, at, references).value, document, at)
    ensures var member := MakeMethodProperty(solution, document, at, references).value[document][at];
            member.Property? && member.prop.WellFormed() && member.prop.IsReadOnly()
            && !member.prop.HasAccessor(Set)
  {
  }
}
