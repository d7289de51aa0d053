/** What the generated step tree is promised to look like: how each group is
    turned into steps, how the steps of every scope are numbered and named,
    that every group's part references come out once and in document order,
    and how deep sub-steps can nest. */
module StepProperties {
  import opened Text
  import opened StepModel

  /** The elements of a scope are all steps, named `prefix` followed by
      `start`, `start + 1`, ... in order, and each of them is well formed. */
  predicate NumberedScope(nodes: seq<Node>, prefix: string, start: nat)
    decreases nodes
  {
    forall k :: 0 <= k < |nodes| ==>
      && nodes[k].Step?
      && nodes[k].name == prefix + NatToString(start + k)
      && WellFormedStep(nodes[k])
  }

  /** A step holds only `PartRef` elements (a part step) or only sub-steps
      numbered from 1 under its own name (a sub-step container). */
  predicate WellFormedStep(step: Node)
    requires step.Step?
    decreases step
  {
    || (forall c :: c in step.children ==> c.PartRef?)
    || NumberedScope(step.children, step.name + "Substep", 1)
  }

  /** The `partRef` values of a list of elements, in document order. */
  function TreeRefs(nodes: seq<Node>): seq<string>
    decreases nodes
  {
    if |nodes| == 0 then [] else NodeRefs(nodes[0]) + TreeRefs(nodes[1..])
  }

  function NodeRefs(node: Node): seq<string>
    decreases node
  {
    match node
    case PartRef(r) => [r]
    case Step(_, children) => TreeRefs(children)
  }

  /** The split part references of a group and all groups under it, in document order. */
  function GroupRefs(group: Group): seq<string>
    decreases group
  {
    (if GroupHasPartRefs(group.partRefs) then GroupGetPartRefs(group.partRefs) else [])
    + GroupListRefs(group.children)
  }

  function GroupListRefs(groups: seq<Group>): seq<string>
    decreases groups
  {
    if |groups| == 0 then [] else GroupRefs(groups[0]) + GroupListRefs(groups[1..])
  }

  /** Levels of `Step` elements from an element down to its deepest leaf. */
  function Height(node: Node): nat
    decreases node
  {
    match node
    case PartRef(_) => 0
    case Step(_, children) => 1 + MaxHeight(children)
  }

  function MaxHeight(nodes: seq<Node>): nat
    decreases nodes
  {
    if |nodes| == 0 then 0
    else
      var h := Height(nodes[0]);
      var t := MaxHeight(nodes[1..]);
      if h < t then t else h
  }

  /** How many more sub-step levels may still be opened at `depth`. */
  function LevelsLeft(depth: nat, maxDepth: int): nat {
    if depth < maxDepth then maxDepth - depth else 0
  }

  // ---------------------------------------------------------------------
  // How one group is turned into steps

  /** A group with part references yields, first, one step named with the
      current number whose children are its split part references, in order;
      without child groups, that step is the only one. */
  lemma GroupWithPartRefsMakesOneStep(group: Group, index: nat, groupCount: nat, parentName: string,
                                      stepNumber: nat, depth: nat, maxDepth: int)
    requires index < groupCount
    requires GroupHasPartRefs(group.partRefs)
    ensures var steps := GenSteps(group, index, groupCount, parentName, stepNumber, depth, maxDepth);
      && |steps| >= 1
      && steps[0].Step?
      && steps[0].name == StepName(parentName, stepNumber, depth)
      && |steps[0].children| == |GroupGetPartRefs(group.partRefs)|
      && (forall k :: 0 <= k < |steps[0].children| ==>
           steps[0].children[k] == PartRef(GroupGetPartRefs(group.partRefs)[k]))
      && (|group.children| == 0 ==> |steps| == 1)
  {
  }

  /** A group with part references and no child groups yields exactly its part
      step and nothing else. */
  lemma LeafMakesExactlyOneStep(group: Group, index: nat, groupCount: nat, parentName: string,
                                stepNumber: nat, depth: nat, maxDepth: int)
    requires index < groupCount
    requires GroupHasPartRefs(group.partRefs) && |group.children| == 0
    ensures GenSteps(group, index, groupCount, parentName, stepNumber, depth, maxDepth)
      == [Step(StepName(parentName, stepNumber, depth), PartRefElements(GroupGetPartRefs(group.partRefs)))]
  {
  }

  /** A group without part references and without child groups adds nothing. */
  lemma EmptyGroupAddsNothing(group: Group, index: nat, groupCount: nat, parentName: string,
                              stepNumber: nat, depth: nat, maxDepth: int)
    requires index < groupCount
    requires !GroupHasPartRefs(group.partRefs) && |group.children| == 0
    ensures GenSteps(group, index, groupCount, parentName, stepNumber, depth, maxDepth) == []
  {
  }

  /** A group with child groups and siblings gets exactly one sub-step container
      while the depth is below the maximum: it comes after the group's own part
      step, if any, takes the next number, and holds the child groups' steps
      numbered afresh from 1, one level deeper. */
  lemma ContainerWhenSiblingsAndDepthAllow(group: Group, index: nat, groupCount: nat, parentName: string,
                                           stepNumber: nat, depth: nat, maxDepth: int)
    requires index < groupCount
    requires |group.children| > 0 && groupCount > 1 && depth < maxDepth
    ensures var steps := GenSteps(group, index, groupCount, parentName, stepNumber, depth, maxDepth);
      var own := if GroupHasPartRefs(group.partRefs) then 1 else 0;
      var name := StepName(parentName, stepNumber + own, depth);
      && |steps| == own + 1
      && steps[own] == Step(name, GenAll(group.children, 0, name, 1, depth + 1, maxDepth))
  {
  }

  /** Otherwise (an only child, or the maximum depth reached) the child groups'
      steps go into the same scope, with the same running number and depth. */
  lemma FlattenOtherwise(group: Group, index: nat, groupCount: nat, parentName: string,
                         stepNumber: nat, depth: nat, maxDepth: int)
    requires index < groupCount
    requires |group.children| > 0 && (groupCount <= 1 || depth >= maxDepth)
    ensures var steps := GenSteps(group, index, groupCount, parentName, stepNumber, depth, maxDepth);
      var own := if GroupHasPartRefs(group.partRefs) then 1 else 0;
      steps[own..] == GenAll(group.children, 0, parentName, stepNumber + own, depth, maxDepth)
  {
  }

  // ---------------------------------------------------------------------
  // Numbering and naming

  lemma {:induction false} NumberedScopeAppend(a: seq<Node>, b: seq<Node>, prefix: string, start: nat)
    requires NumberedScope(a, prefix, start)
    requires NumberedScope(b, prefix, start + |a|)
    ensures NumberedScope(a + b, prefix, start)
  {
    forall k | 0 <= k < |a + b|
      ensures (a + b)[k].Step? && (a + b)[k].name == prefix + NatToString(start + k)
      ensures WellFormedStep((a + b)[k])
    {
      if k >= |a| {
        assert (a + b)[k] == b[k - |a|];
        assert start + k == start + |a| + (k - |a|);
      }
    }
  }

  lemma PartRefElementsArePartRefs(refs: seq<string>)
    ensures forall c :: c in PartRefElements(refs) ==> c.PartRef?
  {
  }

  lemma OwnStepNumbered(group: Group, parentName: string, stepNumber: nat, depth: nat)
    ensures NumberedScope(OwnStep(group, parentName, stepNumber, depth), ScopePrefix(parentName, depth), stepNumber)
    ensures forall s :: s in OwnStep(group, parentName, stepNumber, depth) ==>
      s.Step? && forall c :: c in s.children ==> c.PartRef?
  {
    if GroupHasPartRefs(group.partRefs) {
      PartRefElementsArePartRefs(GroupGetPartRefs(group.partRefs));
    }
  }

  lemma {:induction false} ChildStepsNumbered(group: Group, index: nat, groupCount: nat, parentName: string,
                                              stepNumber: nat, depth: nat, maxDepth: int)
    requires index < groupCount
    ensures NumberedScope(ChildSteps(group, index, groupCount, parentName, stepNumber, depth, maxDepth),
                          ScopePrefix(parentName, depth), stepNumber)
    decreases group, 0
  {
    if |group.children| == 0 {
    } else if GroupHasSiblings(index, groupCount) && depth < maxDepth {
      var name := StepName(parentName, stepNumber, depth);
      GenAllNumbered(group.children, 0, name, 1, depth + 1, maxDepth);
      assert ScopePrefix(name, depth + 1) == name + "Substep";
    } else {
      GenAllNumbered(group.children, 0, parentName, stepNumber, depth, maxDepth);
    }
  }

  /** The steps made for one group are numbered on from `stepNumber`, and every
      container among them numbers its own sub-steps from 1. */
  lemma {:induction false} GenStepsNumbered(group: Group, index: nat, groupCount: nat, parentName: string,
                                            stepNumber: nat, depth: nat, maxDepth: int)
    requires index < groupCount
    ensures NumberedScope(GenSteps(group, index, groupCount, parentName, stepNumber, depth, maxDepth),
                          ScopePrefix(parentName, depth), stepNumber)
    decreases group, 1
  {
    var own := OwnStep(group, parentName, stepNumber, depth);
    OwnStepNumbered(group, parentName, stepNumber, depth);
    ChildStepsNumbered(group, index, groupCount, parentName, stepNumber + |own|, depth, maxDepth);
    NumberedScopeAppend(own, ChildSteps(group, index, groupCount, parentName, stepNumber + |own|, depth, maxDepth),
                        ScopePrefix(parentName, depth), stepNumber);
  }

  /** The steps made for sibling groups share one running number. */
  lemma {:induction false} GenAllNumbered(groups: seq<Group>, from: nat, parentName: string,
                                          stepNumber: nat, depth: nat, maxDepth: int)
    requires from <= |groups|
    ensures NumberedScope(GenAll(groups, from, parentName, stepNumber, depth, maxDepth),
                          ScopePrefix(parentName, depth), stepNumber)
    decreases groups, |groups| - from + 1
  {
    if from < |groups| {
      var first := GenSteps(groups[from], from, |groups|, parentName, stepNumber, depth, maxDepth);
      GenStepsNumbered(groups[from], from, |groups|, parentName, stepNumber, depth, maxDepth);
      GenAllNumbered(groups, from + 1, parentName, stepNumber + |first|, depth, maxDepth);
      NumberedScopeAppend(first, GenAll(groups, from + 1, parentName, stepNumber + |first|, depth, maxDepth),
                          ScopePrefix(parentName, depth), stepNumber);
    }
  }

  /** The top-level steps are Step1, Step2, ... across all top-level groups, and
      at every level below, the sub-steps of a step named N are NSubstep1,
      NSubstep2, ...; every step is a part step or a container, never both. */
  lemma BuildNumbered(groups: seq<Group>, maxDepth: int)
    ensures Build(groups, maxDepth).name == "BuildingGuide1"
    ensures NumberedScope(Build(groups, maxDepth).steps, "Step", 1)
  {
    GenAllNumbered(groups, 0, BuildingGuideName, 1, 0, maxDepth);
  }

  /** Names in one scope are all different. */
  lemma ScopeNamesDistinct(nodes: seq<Node>, prefix: string, start: nat)
    requires NumberedScope(nodes, prefix, start)
    ensures forall i, j :: 0 <= i < j < |nodes| ==>
      nodes[i].Step? && nodes[j].Step? && nodes[i].name != nodes[j].name
  {
    forall i, j | 0 <= i < j < |nodes|
      ensures nodes[i].name != nodes[j].name
    {
      PrefixedNumbersDiffer(prefix, start + i, start + j);
    }
  }

  /** The names of the top-level steps of the generated instructions are all
      different. */
  lemma {:induction false} BuildNamesDistinct(groups: seq<Group>, maxDepth: int)
    ensures var steps := Build(groups, maxDepth).steps;
      forall i, j :: 0 <= i < j < |steps| ==>
        steps[i].Step? && steps[j].Step? && steps[i].name != steps[j].name
  {
    BuildNumbered(groups, maxDepth);
    ScopeNamesDistinct(Build(groups, maxDepth).steps, "Step", 1);
  }

  /** No two steps directly under one element share a name. */
  predicate DistinctNames(nodes: seq<Node>) {
    forall i, j :: 0 <= i < j < |nodes| && nodes[i].Step? && nodes[j].Step? ==>
      nodes[i].name != nodes[j].name
  }

  /** Names are distinct under every element of the tree, at every level. */
  predicate ScopesDistinct(nodes: seq<Node>)
    decreases nodes
  {
    && DistinctNames(nodes)
    && forall k :: 0 <= k < |nodes| && nodes[k].Step? ==> ScopesDistinct(nodes[k].children)
  }

  /** A numbered scope has distinct names in it and in every scope below it. */
  lemma {:induction false} NumberedScopesDistinct(nodes: seq<Node>, prefix: string, start: nat)
    requires NumberedScope(nodes, prefix, start)
    ensures ScopesDistinct(nodes)
    decreases nodes
  {
    ScopeNamesDistinct(nodes, prefix, start);
    forall k | 0 <= k < |nodes| && nodes[k].Step?
      ensures ScopesDistinct(nodes[k].children)
    {
      var step := nodes[k];
      assert WellFormedStep(step);
      if forall c :: c in step.children ==> c.PartRef? {
        assert forall i :: 0 <= i < |step.children| ==> step.children[i] in step.children;
      } else {
        NumberedScopesDistinct(step.children, step.name + "Substep", 1);
      }
    }
  }

  /** In the generated instructions, the steps directly under any one element
      (the instruction itself or any sub-step container) have distinct names. */
  lemma BuildScopesDistinct(groups: seq<Group>, maxDepth: int)
    ensures ScopesDistinct(Build(groups, maxDepth).steps)
  {
    BuildNumbered(groups, maxDepth);
    NumberedScopesDistinct(Build(groups, maxDepth).steps, "Step", 1);
  }

  // ---------------------------------------------------------------------
  // Every group is visited once, in document order

  lemma {:induction false} TreeRefsAppend(a: seq<Node>, b: seq<Node>)
    ensures TreeRefs(a + b) == TreeRefs(a) + TreeRefs(b)
  {
    if |a| > 0 {
      assert (a + b)[0] == a[0];
      assert (a + b)[1..] == a[1..] + b;
      TreeRefsAppend(a[1..], b);
    } else {
      assert a + b == b;
    }
  }

  lemma {:induction false} PartRefElementsRefs(refs: seq<string>)
    ensures TreeRefs(PartRefElements(refs)) == refs
  {
    if |refs| > 0 {
      assert PartRefElements(refs)[1..] == PartRefElements(refs[1..]);
      PartRefElementsRefs(refs[1..]);
      assert refs == [refs[0]] + refs[1..];
    }
  }

  lemma OwnStepRefs(group: Group, parentName: string, stepNumber: nat, depth: nat)
    ensures TreeRefs(OwnStep(group, parentName, stepNumber, depth))
            == if GroupHasPartRefs(group.partRefs) then GroupGetPartRefs(group.partRefs) else []
  {
    if GroupHasPartRefs(group.partRefs) {
      var own := OwnStep(group, parentName, stepNumber, depth);
      PartRefElementsRefs(GroupGetPartRefs(group.partRefs));
      assert TreeRefs(own) == NodeRefs(own[0]) + TreeRefs([]);
    }
  }

  lemma {:induction false} ChildStepsRefs(group: Group, index: nat, groupCount: nat, parentName: string,
                                          stepNumber: nat, depth: nat, maxDepth: int)
    requires index < groupCount
    ensures TreeRefs(ChildSteps(group, index, groupCount, parentName, stepNumber, depth, maxDepth))
            == GroupListRefs(group.children)
    decreases group, 0
  {
    assert group.children[0..] == group.children;
    if |group.children| == 0 {
    } else if GroupHasSiblings(index, groupCount) && depth < maxDepth {
      var name := StepName(parentName, stepNumber, depth);
      var container := Step(name, GenAll(group.children, 0, name, 1, depth + 1, maxDepth));
      GenAllRefs(group.children, 0, name, 1, depth + 1, maxDepth);
      assert TreeRefs([container]) == NodeRefs(container) + TreeRefs([]);
    } else {
      GenAllRefs(group.children, 0, parentName, stepNumber, depth, maxDepth);
    }
  }

  lemma {:induction false} GenStepsRefs(group: Group, index: nat, groupCount: nat, parentName: string,
                                        stepNumber: nat, depth: nat, maxDepth: int)
    requires index < groupCount
    ensures TreeRefs(GenSteps(group, index, groupCount, parentName, stepNumber, depth, maxDepth)) == GroupRefs(group)
    decreases group, 1
  {
    var own := OwnStep(group, parentName, stepNumber, depth);
    OwnStepRefs(group, parentName, stepNumber, depth);
    ChildStepsRefs(group, index, groupCount, parentName, stepNumber + |own|, depth, maxDepth);
    TreeRefsAppend(own, ChildSteps(group, index, groupCount, parentName, stepNumber + |own|, depth, maxDepth));
  }

  lemma {:induction false} GenAllRefs(groups: seq<Group>, from: nat, parentName: string,
                                      stepNumber: nat, depth: nat, maxDepth: int)
    requires from <= |groups|
    ensures TreeRefs(GenAll(groups, from, parentName, stepNumber, depth, maxDepth)) == GroupListRefs(groups[from..])
    decreases groups, |groups| - from + 1
  {
    if from < |groups| {
      var first := GenSteps(groups[from], from, |groups|, parentName, stepNumber, depth, maxDepth);
      GenStepsRefs(groups[from], from, |groups|, parentName, stepNumber, depth, maxDepth);
      GenAllRefs(groups, from + 1, parentName, stepNumber + |first|, depth, maxDepth);
      TreeRefsAppend(first, GenAll(groups, from + 1, parentName, stepNumber + |first|, depth, maxDepth));
      assert groups[from..][0] == groups[from];
      assert groups[from..][1..] == groups[from + 1..];
    }
  }

  /** Reading the `PartRef` elements of the generated instructions in document
      order gives every group's split part references, each group once, in the
      order the groups appear in the GroupSystem. */
  lemma BuildKeepsAllPartRefs(groups: seq<Group>, maxDepth: int)
    ensures TreeRefs(Build(groups, maxDepth).steps) == GroupListRefs(groups)
  {
    GenAllRefs(groups, 0, BuildingGuideName, 1, 0, maxDepth);
    assert groups[0..] == groups;
  }

  // ---------------------------------------------------------------------
  // The depth bound

  lemma {:induction false} MaxHeightAppend(a: seq<Node>, b: seq<Node>, bound: nat)
    requires MaxHeight(a) <= bound && MaxHeight(b) <= bound
    ensures MaxHeight(a + b) <= bound
  {
    if |a| > 0 {
      assert (a + b)[0] == a[0];
      assert (a + b)[1..] == a[1..] + b;
      MaxHeightAppend(a[1..], b, bound);
    } else {
      assert a + b == b;
    }
  }

  lemma {:induction false} PartRefElementsFlat(refs: seq<string>)
    ensures MaxHeight(PartRefElements(refs)) == 0
  {
    if |refs| > 0 {
      assert PartRefElements(refs)[1..] == PartRefElements(refs[1..]);
      PartRefElementsFlat(refs[1..]);
    }
  }

  lemma OwnStepHeight(group: Group, parentName: string, stepNumber: nat, depth: nat)
    ensures MaxHeight(OwnStep(group, parentName, stepNumber, depth)) <= 1
  {
    if GroupHasPartRefs(group.partRefs) {
      PartRefElementsFlat(GroupGetPartRefs(group.partRefs));
    }
  }

  lemma {:induction false} ChildStepsHeight(group: Group, index: nat, groupCount: nat, parentName: string,
                                            stepNumber: nat, depth: nat, maxDepth: int)
    requires index < groupCount
    ensures MaxHeight(ChildSteps(group, index, groupCount, parentName, stepNumber, depth, maxDepth))
            <= 1 + LevelsLeft(depth, maxDepth)
    decreases group, 0
  {
    if |group.children| == 0 {
    } else if GroupHasSiblings(index, groupCount) && depth < maxDepth {
      var name := StepName(parentName, stepNumber, depth);
      var container := Step(name, GenAll(group.children, 0, name, 1, depth + 1, maxDepth));
      GenAllHeight(group.children, 0, name, 1, depth + 1, maxDepth);
      assert Height(container) <= 1 + LevelsLeft(depth, maxDepth);
      assert MaxHeight([container]) == Height(container);
    } else {
      GenAllHeight(group.children, 0, parentName, stepNumber, depth, maxDepth);
    }
  }

  lemma {:induction false} GenStepsHeight(group: Group, index: nat, groupCount: nat, parentName: string,
                                          stepNumber: nat, depth: nat, maxDepth: int)
    requires index < groupCount
    ensures MaxHeight(GenSteps(group, index, groupCount, parentName, stepNumber, depth, maxDepth))
            <= 1 + LevelsLeft(depth, maxDepth)
    decreases group, 1
  {
    var own := OwnStep(group, parentName, stepNumber, depth);
    OwnStepHeight(group, parentName, stepNumber, depth);
    ChildStepsHeight(group, index, groupCount, parentName, stepNumber + |own|, depth, maxDepth);
    MaxHeightAppend(own, ChildSteps(group, index, groupCount, parentName, stepNumber + |own|, depth, maxDepth),
                    1 + LevelsLeft(depth, maxDepth));
  }

  lemma {:induction false} GenAllHeight(groups: seq<Group>, from: nat, parentName: string,
                                        stepNumber: nat, depth: nat, maxDepth: int)
    requires from <= |groups|
    ensures MaxHeight(GenAll(groups, from, parentName, stepNumber, depth, maxDepth))
            <= 1 + LevelsLeft(depth, maxDepth)
    decreases groups, |groups| - from + 1
  {
    if from < |groups| {
      var first := GenSteps(groups[from], from, |groups|, parentName, stepNumber, depth, maxDepth);
      GenStepsHeight(groups[from], from, |groups|, parentName, stepNumber, depth, maxDepth);
      GenAllHeight(groups, from + 1, parentName, stepNumber + |first|, depth, maxDepth);
      MaxHeightAppend(first, GenAll(groups, from + 1, parentName, stepNumber + |first|, depth, maxDepth),
                      1 + LevelsLeft(depth, maxDepth));
    }
  }

  lemma {:induction false} MaxHeightBoundsEach(nodes: seq<Node>, k: nat)
    requires k < |nodes|
    ensures Height(nodes[k]) <= MaxHeight(nodes)
  {
    if k > 0 {
      MaxHeightBoundsEach(nodes[1..], k - 1);
    }
  }

  /** Under a top-level step there are at most `maxDepth` levels of sub-steps
      (none when `maxDepth` is 0 or negative). */
  lemma BuildDepthBound(groups: seq<Group>, maxDepth: int)
    ensures var steps := Build(groups, maxDepth).steps;
      forall k :: 0 <= k < |steps| ==> Height(steps[k]) <= 1 + (if maxDepth > 0 then maxDepth else 0)
  {
    var steps := Build(groups, maxDepth).steps;
    GenAllHeight(groups, 0, BuildingGuideName, 1, 0, maxDepth);
    forall k | 0 <= k < |steps|
      ensures Height(steps[k]) <= 1 + (if maxDepth > 0 then maxDepth else 0)
    {
      MaxHeightBoundsEach(steps, k);
    }
  }

  /** With a maximum sub-step depth of 0 or less, no container is ever made:
      every top-level step holds only `PartRef` elements. */
  lemma NoContainersWithoutDepth(groups: seq<Group>, maxDepth: int)
    requires maxDepth <= 0
    ensures var steps := Build(groups, maxDepth).steps;
      forall k :: 0 <= k < |steps| ==>
        steps[k].Step? && forall c :: c in steps[k].children ==> c.PartRef?
  {
    var steps := Build(groups, maxDepth).steps;
    BuildDepthBound(groups, maxDepth);
    BuildNumbered(groups, maxDepth);
    forall k | 0 <= k < |steps|
      ensures steps[k].Step? && forall c :: c in steps[k].children ==> c.PartRef?
    {
      forall c | c in steps[k].children
        ensures c.PartRef?
      {
        var i :| 0 <= i < |steps[k].children| && steps[k].children[i] == c;
        MaxHeightBoundsEach(steps[k].children, i);
      }
    }
  }
}
