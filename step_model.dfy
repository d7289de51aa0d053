/** The data the step generator reads and writes, and the step tree it builds,
    written as functions of the input.

    A `Group` element of an LXFML GroupSystem may carry a `partRefs` attribute
    (a comma-separated list) and has an ordered list of child `Group` elements.
    The generator's output is a `BuildingInstruction` element holding `Step`
    elements; a `Step` holds either `PartRef` elements or further `Step`
    elements (its sub-steps).

    Where the program asks a group for its parent (to see whether it has
    siblings), the model passes the group's position among its parent's
    `Group` children and the number of those children. */
module StepModel {
  import opened Text

  datatype Option<T> = None | Some(value: T)

  /** A `Group` element: its `partRefs` attribute, if present, and its child groups. */
  datatype Group = Group(partRefs: Option<string>, children: seq<Group>)

  /** An element of the generated instructions: a `PartRef` with its `partRef`
      attribute, or a `Step` with its `name` attribute and its child elements. */
  datatype Node =
    | PartRef(partRef: string)
    | Step(name: string, children: seq<Node>)

  /** The `BuildingInstruction` element with its `name` attribute and its steps. */
  datatype BuildingInstruction = BuildingInstruction(name: string, steps: seq<Node>)

  const BuildingGuideName: string := "BuildingGuide1"

  /** `GroupHasSiblings`: the group, at `index` among its parent's `groupCount`
      Group children, has another Group before or after it. The program asks
      whether the parent's Group children go on after the first one. */
  predicate GroupHasSiblings(index: nat, groupCount: nat)
    requires index < groupCount
    ensures GroupHasSiblings(index, groupCount) <==> index > 0 || index + 1 < groupCount
  {
    groupCount > 1
  }

  /** `GroupHasPartRefs`: the attribute is present and not whitespace only. */
  predicate GroupHasPartRefs(partRefs: Option<string>) {
    partRefs.Some? && !IsWhiteSpaceOnly(partRefs.value)
  }

  /** A group has part references exactly when its attribute is present and
      holds some character that is not whitespace. */
  lemma GroupHasPartRefsMeaning(partRefs: Option<string>)
    ensures GroupHasPartRefs(partRefs) <==>
      partRefs.Some? && exists i :: 0 <= i < |partRefs.value| && !IsWhiteSpace(partRefs.value[i])
  {
  }

  /** `GroupGetPartRefs`: the attribute split on commas, zero-length entries dropped. */
  function GroupGetPartRefs(partRefs: Option<string>): (refs: seq<string>)
    requires GroupHasPartRefs(partRefs)
    ensures forall i :: 0 <= i < |refs| ==> refs[i] != "" && ',' !in refs[i]
  {
    SplitRemoveEmpty(partRefs.value, ',')
  }

  /** The part references, laid end to end, are the attribute with its commas
      taken out: nothing is trimmed, reordered or lost. */
  lemma GroupGetPartRefsKeepsText(partRefs: Option<string>)
    requires GroupHasPartRefs(partRefs)
    ensures Concat(GroupGetPartRefs(partRefs)) == Without(partRefs.value, ',')
  {
    SplitRemoveEmptyKeepsText(partRefs.value, ',');
  }

  /** Part references written out with commas between them come back as
      exactly those references, in order. */
  lemma GroupGetPartRefsJoin(refs: seq<string>)
    requires forall i :: 0 <= i < |refs| ==> refs[i] != "" && ',' !in refs[i]
    requires GroupHasPartRefs(Some(Join(refs, ',')))
    ensures GroupGetPartRefs(Some(Join(refs, ','))) == refs
  {
    SplitRemoveEmptyJoin(refs, ',');
  }

  /** What stands before the number in the name of a step made at `depth`
      inside the element named `parentName`. */
  function ScopePrefix(parentName: string, depth: nat): string {
    if depth == 0 then "Step" else parentName + "Substep"
  }

  /** The name `CreateStep` gives the step numbered `stepNumber`. */
  function StepName(parentName: string, stepNumber: nat, depth: nat): string {
    ScopePrefix(parentName, depth) + NatToString(stepNumber)
  }

  /** A step's name is the scope's prefix followed by decimal digits that read
      back as the step's number. */
  lemma StepNameReadsBack(parentName: string, stepNumber: nat, depth: nat)
    ensures var prefix := ScopePrefix(parentName, depth);
      var name := StepName(parentName, stepNumber, depth);
      && |prefix| < |name|
      && name[..|prefix|] == prefix
      && (forall i :: |prefix| <= i < |name| ==> '0' <= name[i] <= '9')
      && ParseNat(name[|prefix|..]) == stepNumber
  {
    var prefix := ScopePrefix(parentName, depth);
    var name := StepName(parentName, stepNumber, depth);
    assert name[|prefix|..] == NatToString(stepNumber);
    ParseNatToString(stepNumber);
  }

  /** One `PartRef` element per entry, in order. */
  function PartRefElements(refs: seq<string>): (elements: seq<Node>)
    ensures |elements| == |refs|
    ensures forall k :: 0 <= k < |refs| ==> elements[k] == PartRef(refs[k])
  {
    seq(|refs|, k requires 0 <= k < |refs| => PartRef(refs[k]))
  }

  /** The part step `GenerateStep` makes for a group that has part references
      (none for a group that has not): named with the current number, holding
      one `PartRef` per entry. */
  function OwnStep(group: Group, parentName: string, stepNumber: nat, depth: nat): seq<Node> {
    if GroupHasPartRefs(group.partRefs)
    then [Step(StepName(parentName, stepNumber, depth), PartRefElements(GroupGetPartRefs(group.partRefs)))]
    else []
  }

  /** The steps `GenerateStep` appends for a group's child groups once its own
      part step, if any, is made and the running number is `stepNumber`: one
      sub-step container holding the children's steps numbered from 1, one
      level deeper, when the group has siblings and the depth allows it;
      otherwise the children's steps, straight into the same scope. */
  function ChildSteps(group: Group, index: nat, groupCount: nat, parentName: string,
                      stepNumber: nat, depth: nat, maxDepth: int): seq<Node>
    requires index < groupCount
    decreases group, 0
  {
    if |group.children| == 0 then []
    else if GroupHasSiblings(index, groupCount) && depth < maxDepth then
      var name := StepName(parentName, stepNumber, depth);
      [Step(name, GenAll(group.children, 0, name, 1, depth + 1, maxDepth))]
    else
      GenAll(group.children, 0, parentName, stepNumber, depth, maxDepth)
  }

  /** The steps `GenerateStep` appends to the element named `parentName` for
      `group`, the group at `index` among its parent's `groupCount` Group
      children, when the running step number is `stepNumber`, the current
      sub-step depth is `depth` and the configured maximum is `maxDepth`.
      The counter afterwards is `stepNumber` plus the number of these steps. */
  function GenSteps(group: Group, index: nat, groupCount: nat, parentName: string,
                    stepNumber: nat, depth: nat, maxDepth: int): seq<Node>
    requires index < groupCount
    decreases group, 1
  {
    var own := OwnStep(group, parentName, stepNumber, depth);
    own + ChildSteps(group, index, groupCount, parentName, stepNumber + |own|, depth, maxDepth)
  }

  /** The steps appended for the sibling groups `groups[from..]`, in order, with
      the step number running on from one group to the next. */
  function GenAll(groups: seq<Group>, from: nat, parentName: string,
                  stepNumber: nat, depth: nat, maxDepth: int): seq<Node>
    requires from <= |groups|
    decreases groups, |groups| - from + 1
  {
    if from == |groups| then []
    else
      var first := GenSteps(groups[from], from, |groups|, parentName, stepNumber, depth, maxDepth);
      first + GenAll(groups, from + 1, parentName, stepNumber + |first|, depth, maxDepth)
  }

  /** The steps for `groups[from..]` are those of `groups[from]` followed by
      those of the rest, numbered on. */
  lemma GenAllUnfold(groups: seq<Group>, from: nat, parentName: string,
                     stepNumber: nat, depth: nat, maxDepth: int)
    requires from < |groups|
    ensures var first := GenSteps(groups[from], from, |groups|, parentName, stepNumber, depth, maxDepth);
      GenAll(groups, from, parentName, stepNumber, depth, maxDepth)
      == first + GenAll(groups, from + 1, parentName, stepNumber + |first|, depth, maxDepth)
  {
  }

  /** The instructions generated for the GroupSystem's top-level groups: one
      running step number from 1, depth 0. */
  function Build(groups: seq<Group>, maxDepth: int): BuildingInstruction {
    BuildingInstruction(BuildingGuideName, GenAll(groups, 0, BuildingGuideName, 1, 0, maxDepth))
  }
}
