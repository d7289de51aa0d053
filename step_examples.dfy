/** Small worked cases of part-reference splitting and step generation,
    stated as lemmas. */
module StepExamples {
  import opened Text
  import opened StepModel

  /** An attribute of a single comma counts as present, but yields no entries. */
  lemma CommaOnly()
    ensures GroupHasPartRefs(Some(",")) && GroupGetPartRefs(Some(",")) == []
  {
    SplitNoSeparator("", ',');
    SplitAfterSeparator("", ',');
    assert "," == [','] + "";
    assert RemoveEmpty(["", ""]) == [] by { assert ["", ""][1..] == [""]; }
  }

  /** Plain splitting keeps the empty entry between two adjacent commas. */
  lemma SplitKeepsEmptyEntries()
    ensures Split(" a,, b", ',') == [" a", "", " b"]
  {
    var rest := [','] + ([','] + " b");
    SplitNoSeparator(" b", ',');
    SplitAfterSeparator(" b", ',');
    SplitAfterSeparator([','] + " b", ',');
    SplitPrefix(" a", rest, ',');
    assert " a,, b" == " a" + rest;
    assert " a" + "" == " a";
  }

  /** Empty entries are dropped, but the others keep their leading spaces. */
  lemma EntriesNotTrimmed()
    ensures GroupHasPartRefs(Some(" a,, b")) && GroupGetPartRefs(Some(" a,, b")) == [" a", " b"]
  {
    assert !IsWhiteSpaceOnly(" a,, b") by { assert " a,, b"[1] == 'a'; }
    SplitKeepsEmptyEntries();
    assert RemoveEmpty(["", " b"]) == [" b"] by { assert ["", " b"][1..] == [" b"]; }
    assert RemoveEmpty([" a", "", " b"]) == [" a", " b"] by { assert [" a", "", " b"][1..] == ["", " b"]; }
  }

  /** A missing, empty or whitespace-only attribute means no part references. */
  lemma WhitespaceOnlyIsNoPartRefs()
    ensures !GroupHasPartRefs(Some(" \t\n")) && !GroupHasPartRefs(Some("")) && !GroupHasPartRefs(None)
  {
  }

  /** "x,y" yields the entries "x" and "y". */
  lemma XYRefs()
    ensures GroupHasPartRefs(Some("x,y")) && GroupGetPartRefs(Some("x,y")) == ["x", "y"]
  {
    assert !IsWhiteSpaceOnly("x,y") by { assert "x,y"[0] == 'x'; }
    SplitNoSeparator("y", ',');
    SplitAfterSeparator("y", ',');
    SplitPrefix("x", [','] + "y", ',');
    assert "x,y" == "x" + ([','] + "y");
    assert "x" + "" == "x";
    assert Split("x,y", ',') == ["x", "y"];
    assert RemoveEmpty(["y"]) == ["y"] by { assert ["y"][1..] == []; }
    assert RemoveEmpty(["x", "y"]) == ["x", "y"] by { assert ["x", "y"][1..] == ["y"]; }
  }

  /** A one-character reference that is not a comma or whitespace is one entry. */
  lemma SingleRef(r: string)
    requires |r| == 1 && r[0] != ',' && !IsWhiteSpace(r[0])
    ensures GroupHasPartRefs(Some(r)) && GroupGetPartRefs(Some(r)) == [r]
  {
    SplitNoSeparator(r, ',');
    assert RemoveEmpty([r]) == [r] by { assert [r][1..] == []; }
  }

  /** A group with part references and no child groups. */
  predicate Leaf(g: Group) {
    GroupHasPartRefs(g.partRefs) && |g.children| == 0
  }

  function LeafRefs(g: Group): seq<Node>
    requires Leaf(g)
  {
    PartRefElements(GroupGetPartRefs(g.partRefs))
  }

  /** The names used in the examples below. */
  lemma ExampleNames()
    ensures StepName(BuildingGuideName, 1, 0) == "Step1"
    ensures StepName(BuildingGuideName, 2, 0) == "Step2"
    ensures StepName(BuildingGuideName, 3, 0) == "Step3"
    ensures StepName("Step2", 1, 1) == "Step2Substep1"
    ensures StepName("Step2", 2, 1) == "Step2Substep2"
  {
    assert NatToString(1) == "1" && NatToString(2) == "2" && NatToString(3) == "3";
  }

  /** Top-level groups A (a leaf) and B (no part references, leaf children C
      and D), with a positive maximum depth: B has a sibling, so it becomes
      the container Step2 holding Step2Substep1 and Step2Substep2. */
  lemma NestedExample(a: Group, c: Group, d: Group, maxDepth: int)
    requires Leaf(a) && Leaf(c) && Leaf(d) && maxDepth > 0
    ensures Build([a, Group(None, [c, d])], maxDepth).steps == [
      Step("Step1", LeafRefs(a)),
      Step("Step2", [Step("Step2Substep1", LeafRefs(c)), Step("Step2Substep2", LeafRefs(d))])]
  {
    var b := Group(None, [c, d]);
    ExampleNames();
    var inner := [Step("Step2Substep1", LeafRefs(c)), Step("Step2Substep2", LeafRefs(d))];
    GenAllUnfold(b.children, 0, "Step2", 1, 1, maxDepth);
    GenAllUnfold(b.children, 1, "Step2", 2, 1, maxDepth);
    assert GenAll(b.children, 0, "Step2", 1, 1, maxDepth) == inner;
    assert GenSteps(b, 1, 2, BuildingGuideName, 2, 0, maxDepth) == [Step("Step2", inner)];
    GenAllUnfold([a, b], 0, BuildingGuideName, 1, 0, maxDepth);
    GenAllUnfold([a, b], 1, BuildingGuideName, 2, 0, maxDepth);
  }

  /** The same groups with a maximum depth of 0 or less: no container is
      made, and C and D follow A as Step2 and Step3. */
  lemma FlatExample(a: Group, c: Group, d: Group, maxDepth: int)
    requires Leaf(a) && Leaf(c) && Leaf(d) && maxDepth <= 0
    ensures Build([a, Group(None, [c, d])], maxDepth).steps == [
      Step("Step1", LeafRefs(a)),
      Step("Step2", LeafRefs(c)),
      Step("Step3", LeafRefs(d))]
  {
    var b := Group(None, [c, d]);
    ExampleNames();
    var flat := [Step("Step2", LeafRefs(c)), Step("Step3", LeafRefs(d))];
    GenAllUnfold(b.children, 0, BuildingGuideName, 2, 0, maxDepth);
    GenAllUnfold(b.children, 1, BuildingGuideName, 3, 0, maxDepth);
    assert GenAll(b.children, 0, BuildingGuideName, 2, 0, maxDepth) == flat;
    assert GenSteps(b, 1, 2, BuildingGuideName, 2, 0, maxDepth) == flat;
    GenAllUnfold([a, b], 0, BuildingGuideName, 1, 0, maxDepth);
    GenAllUnfold([a, b], 1, BuildingGuideName, 2, 0, maxDepth);
  }

  /** B alone at the top level is an only child, so whatever the maximum
      depth, no container is made: C and D become Step1 and Step2. */
  lemma OnlyChildExample(c: Group, d: Group, maxDepth: int)
    requires Leaf(c) && Leaf(d)
    ensures Build([Group(None, [c, d])], maxDepth).steps == [
      Step("Step1", LeafRefs(c)),
      Step("Step2", LeafRefs(d))]
  {
    var b := Group(None, [c, d]);
    ExampleNames();
    var flat := [Step("Step1", LeafRefs(c)), Step("Step2", LeafRefs(d))];
    GenAllUnfold(b.children, 0, BuildingGuideName, 1, 0, maxDepth);
    GenAllUnfold(b.children, 1, BuildingGuideName, 2, 0, maxDepth);
    assert GenAll(b.children, 0, BuildingGuideName, 1, 0, maxDepth) == flat;
    assert GenSteps(b, 0, 1, BuildingGuideName, 1, 0, maxDepth) == flat;
    GenAllUnfold([b], 0, BuildingGuideName, 1, 0, maxDepth);
  }
}
