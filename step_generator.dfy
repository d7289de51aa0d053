/** The step generator as the program runs it: a recursive walk over the groups
    that appends `Step` elements to a parent element and bumps a step counter
    held by the caller. Each method is proved to produce what `StepModel`
    describes. */
module StepGenerator {
  import opened Text
  import opened StepModel
  import opened StepProperties

  /** The element steps are appended to, `stepParent` in the program: the
      `BuildingInstruction` element at the top level, or a sub-step container. */
  class StepParent {
    const name: string
    var steps: seq<Node>

    constructor (name: string)
      ensures this.name == name && steps == []
    {
      this.name := name;
      steps := [];
    }

    /** `XElement.Add` of one step. */
    method Add(step: Node)
      modifies this
      ensures steps == old(steps) + [step]
    {
      steps := steps + [step];
    }
  }

  /** `CreateStep`: appends exactly one step, with the given contents and the
      name for the current number at this depth, at the end of `stepParent`,
      and returns the counter moved on by one. */
  method CreateStep(stepParent: StepParent, stepNumber: nat, substepDepth: nat, contents: seq<Node>)
    returns (next: nat)
    modifies stepParent
    ensures stepParent.steps ==
      old(stepParent.steps) + [Step(StepName(stepParent.name, stepNumber, substepDepth), contents)]
    ensures next == stepNumber + 1
  {
    var stepName := if substepDepth == 0
      then "Step" + NatToString(stepNumber)
      else stepParent.name + "Substep" + NatToString(stepNumber);
    stepParent.Add(Step(stepName, contents));
    next := stepNumber + 1;
  }

  /** One `PartRef` element per part reference, in order (the `foreach` over
      `GroupGetPartRefs`). */
  method MakePartRefElements(refs: seq<string>) returns (elements: seq<Node>)
    ensures elements == PartRefElements(refs)
  {
    elements := [];
    for i := 0 to |refs|
      invariant |elements| == i
      invariant forall k :: 0 <= k < i ==> elements[k] == PartRef(refs[k])
    {
      elements := elements + [PartRef(refs[i])];
    }
  }

  /** `GenerateStep` for `group`, the group at `index` among its parent's
      `groupCount` Group children: appends to `stepParent` the steps described
      by `GenSteps` and returns the counter moved on by as many steps as were
      appended. Nothing else changes. */
  method GenerateStep(group: Group, index: nat, groupCount: nat, stepParent: StepParent,
                      stepNumber: nat, substepDepth: nat, maxSubstepDepth: int)
    returns (next: nat)
    requires index < groupCount
    modifies stepParent
    ensures stepParent.steps == old(stepParent.steps)
      + GenSteps(group, index, groupCount, stepParent.name, stepNumber, substepDepth, maxSubstepDepth)
    ensures next == stepNumber
      + |GenSteps(group, index, groupCount, stepParent.name, stepNumber, substepDepth, maxSubstepDepth)|
    decreases group, 2
  {
    next := stepNumber;
    if GroupHasPartRefs(group.partRefs) {
      // The group's own part step, holding its part references.
      var partRefs := MakePartRefElements(GroupGetPartRefs(group.partRefs));
      next := CreateStep(stepParent, next, substepDepth, partRefs);
    }
    next := GenerateSubGroupSteps(group, index, groupCount, stepParent, next, substepDepth, maxSubstepDepth);
  }

  /** The second half of `GenerateStep`, for the group's child groups: appends
      the steps described by `ChildSteps` and returns the counter moved on by
      as many. */
  method GenerateSubGroupSteps(group: Group, index: nat, groupCount: nat, stepParent: StepParent,
                               stepNumber: nat, substepDepth: nat, maxSubstepDepth: int)
    returns (next: nat)
    requires index < groupCount
    modifies stepParent
    ensures stepParent.steps == old(stepParent.steps)
      + ChildSteps(group, index, groupCount, stepParent.name, stepNumber, substepDepth, maxSubstepDepth)
    ensures next == stepNumber
      + |ChildSteps(group, index, groupCount, stepParent.name, stepNumber, substepDepth, maxSubstepDepth)|
    decreases group, 1
  {
    next := stepNumber;
    var subGroups := group.children;
    if |subGroups| > 0 {
      if GroupHasSiblings(index, groupCount) && substepDepth < maxSubstepDepth {
        // One container step; the child groups are numbered inside it from 1.
        var step := new StepParent(StepName(stepParent.name, next, substepDepth));
        var _ := GenerateSteps(subGroups, step, 1, substepDepth + 1, maxSubstepDepth);
        assert step.steps == GenAll(subGroups, 0, step.name, 1, substepDepth + 1, maxSubstepDepth);
        next := CreateStep(stepParent, next, substepDepth, step.steps);
      } else {
        // The child groups' steps go straight into this scope.
        next := GenerateSteps(subGroups, stepParent, next, substepDepth, maxSubstepDepth);
      }
    }
  }

  /** The `foreach` over sibling groups: `GenerateStep` for each of `groups` in
      order, into the same `stepParent`, with one running counter. Appends the
      steps described by `GenAll` and returns the counter moved on by as many. */
  method GenerateSteps(groups: seq<Group>, stepParent: StepParent,
                       stepNumber: nat, substepDepth: nat, maxSubstepDepth: int)
    returns (next: nat)
    modifies stepParent
    ensures stepParent.steps == old(stepParent.steps)
      + GenAll(groups, 0, stepParent.name, stepNumber, substepDepth, maxSubstepDepth)
    ensures next == stepNumber + |GenAll(groups, 0, stepParent.name, stepNumber, substepDepth, maxSubstepDepth)|
    decreases groups, 0
  {
    next := stepNumber;
    for i := 0 to |groups|
      invariant stepParent.steps + GenAll(groups, i, stepParent.name, next, substepDepth, maxSubstepDepth)
                == old(stepParent.steps) + GenAll(groups, 0, stepParent.name, stepNumber, substepDepth, maxSubstepDepth)
      invariant next + |old(stepParent.steps)| == stepNumber + |stepParent.steps|
    {
      ghost var before := stepParent.steps;
      ghost var own := GenSteps(groups[i], i, |groups|, stepParent.name, next, substepDepth, maxSubstepDepth);
      ghost var rest := GenAll(groups, i + 1, stepParent.name, next + |own|, substepDepth, maxSubstepDepth);
      GenAllUnfold(groups, i, stepParent.name, next, substepDepth, maxSubstepDepth);
      next := GenerateStep(groups[i], i, |groups|, stepParent, next, substepDepth, maxSubstepDepth);
      assert stepParent.steps + rest == before + (own + rest);
    }
  }

  /** The step generation of `AppendNewBuildingInstructionsElement`: a
      `BuildingInstruction` element named "BuildingGuide1" holding the steps of
      the GroupSystem's groups, with one counter from 1 at depth 0. */
  method GenerateBuildingInstruction(groups: seq<Group>, maxSubstepDepth: int)
    returns (instruction: BuildingInstruction)
    ensures instruction == Build(groups, maxSubstepDepth)
    ensures instruction.name == "BuildingGuide1"
    ensures NumberedScope(instruction.steps, "Step", 1)
    ensures TreeRefs(instruction.steps) == GroupListRefs(groups)
    ensures ScopesDistinct(instruction.steps)
  {
    var buildingInstruction := new StepParent(BuildingGuideName);
    var step := 1;
    step := GenerateSteps(groups, buildingInstruction, step, 0, maxSubstepDepth);
    instruction := BuildingInstruction(buildingInstruction.name, buildingInstruction.steps);
    BuildNumbered(groups, maxSubstepDepth);
    BuildKeepsAllPartRefs(groups, maxSubstepDepth);
    BuildScopesDistinct(groups, maxSubstepDepth);
  }
}
