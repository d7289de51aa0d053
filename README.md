# Groups2BuildingInstructions step generator in Dafny

Groups2BuildingInstructions reads an LXFML model and turns the `Group`
elements of its `GroupSystem` into a `BuildingInstruction` element named
`BuildingGuide1`. It walks the group tree in document order:

- a group whose `partRefs` attribute is present and not whitespace gets one
  *part step* holding one `PartRef` per non-empty comma-separated entry (so
  `","` gives a part step with no `PartRef`);
- a group with child groups either gets one *sub-step container*, when it has
  siblings and the configured maximum sub-step depth allows a further level,
  whose steps are numbered afresh from 1, or has its children's steps flattened
  into the current scope with the running number;
- steps are named `Step<n>` at depth 0 and `<parent name>Substep<n>` below.

This project models that generator and proves what it promises about the tree
it builds.

- `text.dfy` (`Text`) covers .NET's `Char.IsWhiteSpace` and `String.IsNullOrWhiteSpace`,
  `String.Split` on one separator with and without `RemoveEmptyEntries`, and the
  decimal rendering of the step number.
- `step_model.dfy` (`StepModel`) holds the datatypes:
  - `Group`, the input;
  - `Node` and `BuildingInstruction`, the output.

  It also holds the three group predicates and the step names, and describes
  the generated steps as functions of the input:
  - `GenSteps` for one group;
  - `GenAll` for a run of sibling groups;
  - `Build` for the whole GroupSystem.
- `step_generator.dfy` (`StepGenerator`) is the generator as the program runs
  it. A `StepParent` object stands for the element that steps are appended to.
  The methods `CreateStep`, `GenerateStep` and `GenerateSteps` append to it and
  thread the by-reference step counter. Each one is proved to append exactly
  what `StepModel` describes and to return the counter moved on by the number
  of steps it appended.
- `step_properties.dfy` (`StepProperties`) proves the properties of the
  described tree:
  - the four per-group cases;
  - consecutive numbering from 1 in every scope, and distinct names;
  - every group's part references appear once and in document order;
  - homogeneous steps;
  - the depth bound.
- `step_examples.dfy` (`StepExamples`) works through small cases: attribute
  splitting, nested generation and flattened generation.

A group's parent is never consulted directly. Each group is passed with its
position among its parent's `Group` children and the number of those children
(for top-level groups, the GroupSystem's).

`GroupGetPartRefs` splits with `RemoveEmptyEntries` and does not trim, so
`" a,, b"` gives `" a"` and `" b"` (`StepExamples.EntriesNotTrimmed`).

## Model

| member | source | states |
|---|---|---|
| Text.IsWhiteSpace | Groups2BuildingInstructions/Program.cs:205 | the characters `Char.IsWhiteSpace` accepts: U+0009 to U+000D, U+0020, U+0085, U+00A0, U+1680, U+2000 to U+200A, U+2028, U+2029, U+202F, U+205F and U+3000 (used by `IsWhiteSpaceOnly`) |
| Text.IsWhiteSpaceOnly | Groups2BuildingInstructions/Program.cs:205 | true exactly when every character of the present attribute value is .NET whitespace (so the empty string counts), as `String.IsNullOrWhiteSpace` tests |
| Text.Split | Groups2BuildingInstructions/Program.cs:216 | splitting on `,` always yields at least one part and no part contains the separator |
| Text.JoinSplit | Groups2BuildingInstructions/Program.cs:216 | joining the parts of a split with the separator gives back the original string: nothing is lost or altered |
| Text.SplitJoin | Groups2BuildingInstructions/Program.cs:216 | splitting the join of separator-free parts gives back exactly those parts, empty ones included |
| Text.RemoveEmpty | Groups2BuildingInstructions/Program.cs:216 | `RemoveEmptyEntries` keeps no empty entry, never grows the list, and keeps exactly the non-empty entries (each kept entry untouched); order and count are stated by the two lemmas below |
| Text.RemoveEmptyAppend | Groups2BuildingInstructions/Program.cs:216 | dropping empty entries works entry by entry, in order: the kept entries of `a + b` are those of `a` followed by those of `b` |
| Text.RemoveEmptyKeepsNonEmpty | Groups2BuildingInstructions/Program.cs:216 | a list with no empty entry is kept whole, same entries, same order, same count |
| Text.SplitRemoveEmpty | Groups2BuildingInstructions/Program.cs:216 | every returned entry is non-empty and free of the separator |
| Text.SplitRemoveEmptyJoin | Groups2BuildingInstructions/Program.cs:216 | non-empty, separator-free entries joined with the separator come back as exactly those entries in order: the entries break at the separators and nowhere else |
| Text.SplitRemoveEmptyKeepsText | Groups2BuildingInstructions/Program.cs:216 | the returned entries laid end to end are the input with its separators removed: no character is trimmed, reordered or duplicated |
| Text.NatToString | Groups2BuildingInstructions/Program.cs:159-161 | the interpolated step number is at least one decimal digit, with no leading zero for a positive number |
| Text.ParseNatToString | Groups2BuildingInstructions/Program.cs:159-161 | the rendered step number reads back as the same number |
| Text.NatToStringInjective | Groups2BuildingInstructions/Program.cs:159-161 | different step numbers render differently |
| Text.PrefixedNumbersDiffer | Groups2BuildingInstructions/Program.cs:159-161 | one name prefix followed by two different numbers gives two different names |
| StepModel.GroupHasSiblings | Groups2BuildingInstructions/Program.cs:193-199 | the parent's `Group` children go on past the first exactly when the group has another `Group` before or after it |
| StepModel.GroupHasPartRefs | Groups2BuildingInstructions/Program.cs:201-206 | the attribute is present and its value is not whitespace only (its meaning is stated by the lemma below) |
| StepModel.GroupHasPartRefsMeaning | Groups2BuildingInstructions/Program.cs:201-206 | a group has part references exactly when its attribute is present and holds some non-whitespace character |
| StepModel.GroupGetPartRefs | Groups2BuildingInstructions/Program.cs:208-217 | requires the attribute to have part references, as the program's contract does; every entry is non-empty and has no comma |
| StepModel.GroupGetPartRefsKeepsText | Groups2BuildingInstructions/Program.cs:208-217 | the entries laid end to end are the attribute with its commas removed |
| StepModel.GroupGetPartRefsJoin | Groups2BuildingInstructions/Program.cs:208-217 | an attribute written as non-empty, comma-free references with commas between them yields exactly those references, in order |
| StepModel.StepName | Groups2BuildingInstructions/Program.cs:159-161 | the name `CreateStep` gives: `Step` then the number at depth 0, the parent's name, `Substep` and the number below (read back by the lemma below) |
| StepModel.StepNameReadsBack | Groups2BuildingInstructions/Program.cs:159-161 | a step name is the scope prefix (`Step` at depth 0, the parent's name plus `Substep` below), then decimal digits that read back as the counter value before the increment |
| StepModel.PartRefElements | Groups2BuildingInstructions/Program.cs:121-124 | one `PartRef` element per entry, same length, same order |
| StepModel.OwnStep | Groups2BuildingInstructions/Program.cs:116-125 | the group's part step, if it has part references, else nothing; its properties are the `OwnStep*` lemmas |
| StepModel.ChildSteps | Groups2BuildingInstructions/Program.cs:127-151 | the steps for a group's child groups: one container numbered afresh one level deeper, or the children's steps in the same scope; its properties are the `ChildSteps*` lemmas and the two case lemmas |
| StepModel.GenSteps | Groups2BuildingInstructions/Program.cs:111-152 | the steps `GenerateStep` appends for one group, with the running number; its properties are the `GenSteps*` lemmas and the four case lemmas |
| StepModel.GenAll | Groups2BuildingInstructions/Program.cs:138-141 | the steps for a run of sibling groups with one running counter; its properties are the `GenAll*` lemmas |
| StepModel.Build | Groups2BuildingInstructions/Program.cs:100-106 | the `BuildingGuide1` instruction over the top-level groups, counter from 1 at depth 0; its properties are the `Build*` lemmas |
| StepProperties.GroupWithPartRefsMakesOneStep | Groups2BuildingInstructions/Program.cs:116-125 | a group with part references yields first one step, named with the current number, whose children are exactly its split entries as `PartRef`s in order; with no child groups it yields exactly one step |
| StepProperties.LeafMakesExactlyOneStep | Groups2BuildingInstructions/Program.cs:116-129 | a group with part references and no child groups yields exactly the one part step named with the current number and holding its split entries as `PartRef`s, nothing more |
| StepProperties.EmptyGroupAddsNothing | Groups2BuildingInstructions/Program.cs:116-129 | a group with no part references and no child groups yields no step |
| StepProperties.ContainerWhenSiblingsAndDepthAllow | Groups2BuildingInstructions/Program.cs:129-142 | with child groups, siblings and depth below the maximum, exactly one container follows the group's own part step. The container takes the next number and holds the children's steps numbered from 1 under its own name, one level deeper |
| StepProperties.FlattenOtherwise | Groups2BuildingInstructions/Program.cs:143-149 | with child groups but no sibling or no depth left, the children's steps follow in the same scope, with the same running number and depth |
| StepProperties.NumberedScopeAppend | Groups2BuildingInstructions/Program.cs:102-106 | one scope numbered from `s` followed by another numbered on from `s` plus the length of the first is one scope numbered from `s`, as the shared counter produces |
| StepProperties.OwnStepNumbered | Groups2BuildingInstructions/Program.cs:116-125 | the group's part step, if any, carries the current number and holds only `PartRef`s (the second ensures) |
| StepProperties.ChildStepsNumbered | Groups2BuildingInstructions/Program.cs:127-151 | the steps made for a group's children continue the scope's numbering, and a container's own steps are numbered from 1 under the container's name |
| StepProperties.GenStepsNumbered | Groups2BuildingInstructions/Program.cs:111-152 | the steps one group adds to a scope are numbered consecutively from the running number, and every step is well formed |
| StepProperties.GenAllNumbered | Groups2BuildingInstructions/Program.cs:138-141 | sibling groups processed with one running counter give one consecutively numbered, well-formed scope |
| StepProperties.BuildNumbered | Groups2BuildingInstructions/Program.cs:100-106 | the instruction is named `BuildingGuide1` and its steps are `Step1`, `Step2`, ... in order across all top-level groups. Every container below numbers its steps from 1 under its own name, and every step holds only `PartRef`s or only sub-steps |
| StepProperties.ScopeNamesDistinct | Groups2BuildingInstructions/Program.cs:159-166 | the names in a consecutively numbered scope are pairwise different |
| StepProperties.BuildNamesDistinct | Groups2BuildingInstructions/Program.cs:100-106 | the top-level step names are pairwise different |
| StepProperties.NumberedScopesDistinct | Groups2BuildingInstructions/Program.cs:134-140 | a consecutively numbered scope has distinct names in it and, through its well-formed steps, in every scope nested below it |
| StepProperties.BuildScopesDistinct | Groups2BuildingInstructions/Program.cs:111-169 | in the generated instructions the steps directly under any one element, the instruction or any container at any depth, have distinct names |
| StepProperties.TreeRefsAppend | Groups2BuildingInstructions/Program.cs:165 | the part references of appended steps follow those of the earlier ones |
| StepProperties.PartRefElementsRefs | Groups2BuildingInstructions/Program.cs:121-124 | a part step's references are exactly the entries it was built from |
| StepProperties.OwnStepRefs | Groups2BuildingInstructions/Program.cs:116-125 | the group's part step carries exactly its split part references |
| StepProperties.ChildStepsRefs | Groups2BuildingInstructions/Program.cs:127-151 | container or flattened, the steps for child groups carry exactly the children's part references in order |
| StepProperties.GenStepsRefs | Groups2BuildingInstructions/Program.cs:111-152 | the steps for a group carry, in pre-order, exactly the split part references of it and all groups below it |
| StepProperties.GenAllRefs | Groups2BuildingInstructions/Program.cs:138-141 | the steps for a run of sibling groups carry exactly their part references in document order |
| StepProperties.BuildKeepsAllPartRefs | Groups2BuildingInstructions/Program.cs:100-106 | every group is visited exactly once: the pre-order sequence of output `PartRef`s equals the pre-order concatenation of every group's split references |
| StepProperties.MaxHeightAppend | Groups2BuildingInstructions/Program.cs:165 | appending steps within a height bound keeps the bound |
| StepProperties.PartRefElementsFlat | Groups2BuildingInstructions/Program.cs:121-124 | `PartRef` elements have no `Step` below them |
| StepProperties.OwnStepHeight | Groups2BuildingInstructions/Program.cs:116-125 | a part step is one level deep |
| StepProperties.ChildStepsHeight | Groups2BuildingInstructions/Program.cs:129-149 | the steps for child groups nest no deeper than one level plus the sub-step levels still allowed at this depth |
| StepProperties.GenStepsHeight | Groups2BuildingInstructions/Program.cs:111-152 | the steps for a group nest no deeper than one level plus the sub-step levels still allowed |
| StepProperties.GenAllHeight | Groups2BuildingInstructions/Program.cs:131-140 | the steps for sibling groups nest no deeper than one level plus the sub-step levels still allowed |
| StepProperties.MaxHeightBoundsEach | Groups2BuildingInstructions/Program.cs:165 | each element is within the height of its list |
| StepProperties.BuildDepthBound | Groups2BuildingInstructions/Program.cs:131-140 | no top-level step has more than `max(0, maxSubstepDepth)` levels of sub-steps below it |
| StepProperties.NoContainersWithoutDepth | Groups2BuildingInstructions/Program.cs:131 | with a maximum sub-step depth of 0 or less, no container is made: every top-level step holds only `PartRef`s |
| StepGenerator.StepParent.constructor | Groups2BuildingInstructions/Program.cs:100 | a new element with the given name and no steps yet |
| StepGenerator.StepParent.Add | Groups2BuildingInstructions/Program.cs:165 | the step is appended at the end; nothing else changes |
| StepGenerator.CreateStep | Groups2BuildingInstructions/Program.cs:154-169 | appends exactly one step, named for the counter value before the increment at this depth, at the end of the parent, and returns the counter plus 1 |
| StepGenerator.MakePartRefElements | Groups2BuildingInstructions/Program.cs:121-124 | the loop builds one `PartRef` per entry, in order |
| StepGenerator.GenerateStep | Groups2BuildingInstructions/Program.cs:111-125 | appends to the parent exactly the steps `GenSteps` describes for the group, and moves the counter on by as many |
| StepGenerator.GenerateSubGroupSteps | Groups2BuildingInstructions/Program.cs:127-151 | appends the container (with its own counter from 1 at depth + 1) or the flattened children's steps that `ChildSteps` describes, and moves the counter on by as many |
| StepGenerator.GenerateSteps | Groups2BuildingInstructions/Program.cs:138-141 | the `foreach` over sibling groups appends exactly `GenAll`'s steps into one parent with one running counter |
| StepGenerator.GenerateBuildingInstruction | Groups2BuildingInstructions/Program.cs:100-106 | builds exactly `Build`, so the instruction is named `BuildingGuide1`, its top-level steps are `Step1..n` with well-formed scopes below, and its `PartRef`s are every group's references in document order, and names are distinct under every element |
| StepExamples.CommaOnly | Groups2BuildingInstructions/Program.cs:201-217 | an attribute `","` counts as present but yields no entries, so its part step is empty |
| StepExamples.SplitKeepsEmptyEntries | Groups2BuildingInstructions/Program.cs:216 | plain splitting of `" a,, b"` gives `" a"`, `""`, `" b"` |
| StepExamples.EntriesNotTrimmed | Groups2BuildingInstructions/Program.cs:216 | `" a,, b"` yields exactly `" a"` and `" b"`: the empty entry is dropped and the spaces are kept |
| StepExamples.WhitespaceOnlyIsNoPartRefs | Groups2BuildingInstructions/Program.cs:201-206 | a missing, empty or whitespace-only attribute means no part references |
| StepExamples.XYRefs | Groups2BuildingInstructions/Program.cs:208-217 | `"x,y"` yields `"x"` and `"y"` |
| StepExamples.SingleRef | Groups2BuildingInstructions/Program.cs:208-217 | a single non-comma, non-whitespace character is one entry |
| StepExamples.ExampleNames | Groups2BuildingInstructions/Program.cs:159-161 | the concrete names `Step1`..`Step3`, `Step2Substep1`, `Step2Substep2` |
| StepExamples.NestedExample | Groups2BuildingInstructions/Program.cs:100-152 | a leaf group followed by a group with two leaf children gives, with a positive maximum depth, `Step1` and a container `Step2` holding `Step2Substep1` and `Step2Substep2` |
| StepExamples.FlatExample | Groups2BuildingInstructions/Program.cs:100-152 | the same groups with a maximum depth of 0 or less give `Step1`, `Step2`, `Step3` in one scope |
| StepExamples.OnlyChildExample | Groups2BuildingInstructions/Program.cs:129-149 | a single top-level group with two leaf children is an only child, so for any maximum depth its children become `Step1` and `Step2` |

## Left out

- `Main`, `ValidateOptions`, `LoadXLFML`, `SaveXLFML`: file checks, loading and saving XML, console output and `Environment.Exit` are I/O and process control.
- `TransformLXFML`, `RemoveOldBuildingInstructionsElements`, and the lines of `AppendNewBuildingInstructionsElement` other than the step loop are left out. The GroupSystem lookup, the removal of old `BuildingInstructions` and the final `xlfml.Add` splice are `System.Xml.Linq` document edits. The model takes the GroupSystem's top-level groups as its input and yields the `BuildingInstruction` element.
- `Options.cs` is not part of this model. Command-line parsing is done by an external library. The maximum sub-step depth is a parameter.
- `Contract.*` calls: the `GroupGetPartRefs` precondition became a `requires`, and the others are null checks that the value types make unnecessary.
- XML attributes other than `name` and `partRef`, element names other than the step kinds, and non-`Group` child elements of a group are not modelled (the program only reads `Group` children).
- StepGenerator.CreateStep: the program appends an empty step and then fills it, through the returned reference, with `PartRef`s or sub-steps. The model builds the contents first and appends the finished step. The resulting tree is the same, but aliasing of the returned element is not modelled.
- StepGenerator.CreateStep: the `int` step counter is an unbounded natural number, so 32-bit overflow after 2^31 - 1 steps in one scope is not modelled.
- Text.NatToString: culture-specific number formatting is not modelled; decimal digits without separators are assumed, which is what `int` formatting gives.
