# SpanishDice word dice, modelled in Dafny

SpanishDice is a Unity scene of word dice: every face of every die
carries a text mesh. At start-up the game loads a word list from a text
file, shuffles it, and writes the words round-robin onto the faces. A
"Roll" button throws the dice. This project models the two pieces of
sequential logic in that game and proves what they promise:

- **The line loader.** `DataController.GetFileLines` reads a file line by
  line and keeps the non-empty lines in order. It stops after
  `int.MaxValue` lines. When nothing was kept, it stores a message in its
  `error` field saying whether the file exists (`Loader.dfy`).
- **The main controller** (`Dice.dfy`, with its specification in
  `WordAssignment.dfy`):
  - `RandomizeWords` walks the holders in order, then each holder's text
    meshes in order. It skips null or empty holders and null meshes, and
    writes the word at a cursor into each mesh it visits. The cursor then
    moves on and wraps to 0 at the end of the list.
  - `Roll` refuses to throw when no dice are wired.
  - `LoadData` decides whether to show the loader's error.

A file is `Option<seq<string>>`: `None` when the file does not exist,
otherwise the lines its reader yields. A text mesh is a value, `Slot`, which
is either `NullMesh` or `Mesh(text)`. A holder's `textMeshes` array is a
`Holder`, which is either `NullMeshes` or `Meshes(slots)`. The word list
after `words.Shuffle()` is an input of `RandomizeWords`: any permutation of
the current list. The `dice` inspector array holds `Option<Rigidbody>`
entries, because an entry may be left unassigned. `Roll` returns the
engine calls it makes, in order, as a list of `Effect`s. The list ends with
`NullReference` when an unassigned die throws.

The specification of `RandomizeWords` has three parts:

- `Texts(hs)` lists the texts of all non-null meshes in visit order.
- `Cycle(words, 0, k)` lists the first `k` words the cursor hands out.
  `AssignedAt` turns this into a closed form: the mesh visited k-th
  receives `words[k % |words|]`.
- `SameShape` says that no null holder, null mesh, holder or mesh appears
  or disappears.

## Model

| member | source | states |
|---|---|---|
| Loader.DataController.constructor | Assets/Scripts/DataController.cs:7 | A new loader starts with an empty `error`. |
| Loader.DataController.GetFileLines | Assets/Scripts/DataController.cs:8-40 | Returns the non-empty lines among the first int.MaxValue lines of an existing file, in order, and nothing for a missing file. `error` becomes the message when the result is empty and is otherwise unchanged. The ghost count of lines consumed is 0 for a missing file and never exceeds int.MaxValue. |
| Loader.NonEmptyLines | Assets/Scripts/DataController.cs:18-22 | Defines the filter: the lines of a sequence that are not "", in their order. |
| Loader.LinesRead | Assets/Scripts/DataController.cs:17-28 | The lines consumed are a prefix of the file. Their number is the file's length when that is at most int.MaxValue, and exactly int.MaxValue otherwise. |
| Loader.LoadedLines | Assets/Scripts/DataController.cs:10-30 | Defines the list GetFileLines returns: empty for a missing file, otherwise the non-empty lines among those consumed. |
| Loader.ErrorAfterLoad | Assets/Scripts/DataController.cs:33-38 | Defines `error` after a load: the message when the returned list is empty, otherwise its earlier value. |
| Loader.ErrorMessage | Assets/Scripts/DataController.cs:35-37 | The message contains the full path right after its fixed prefix. It ends with "exists." when the file exists and with "not found." otherwise. |
| Loader.NonEmptyLinesAppend | Assets/Scripts/DataController.cs:18-22 | Filtering distributes over concatenation, so the kept lines keep their input order. |
| Loader.NonEmptyLinesHasNoEmpty | Assets/Scripts/DataController.cs:20-21 | No kept line is the empty string. |
| Loader.NonEmptyLinesCountOf | Assets/Scripts/DataController.cs:18-22 | The empty string occurs 0 times in the result. Any other string occurs as often as in the input. |
| Loader.NonEmptyLinesCount | Assets/Scripts/DataController.cs:18-22 | The same multiplicities for all strings at once: the result holds exactly the non-empty input lines. |
| Loader.NonEmptyLinesLength | Assets/Scripts/DataController.cs:18-22 | The result is no longer than the input. |
| Loader.NonEmptyLinesEmptyIff | Assets/Scripts/DataController.cs:18-22 | Nothing is kept if and only if every line is empty. |
| Loader.NonEmptyLinesKeepsAll | Assets/Scripts/DataController.cs:18-22 | Input without empty lines comes back unchanged. |
| Loader.LoadedLinesBounded | Assets/Scripts/DataController.cs:17-28 | The returned list has at most int.MaxValue entries, none of them empty. |
| Loader.FreshLoadErrorIff | Assets/Scripts/DataController.cs:33-38 | Starting from `error == ""`, `error` is non-empty if and only if the returned list is empty. In that case it is the message for the file's existence. |
| Loader.MissingFile | Assets/Scripts/DataController.cs:12-37 | A missing file gives an empty list and the "not found." message. |
| Loader.BlankFile | Assets/Scripts/DataController.cs:13-37 | An existing file whose lines within the int.MaxValue cap are all blank gives an empty list and the "exists." message, whatever follows the cap. |
| Loader.NonBlankFile | Assets/Scripts/DataController.cs:18-38 | A file with a non-empty line within the cap returns that line and leaves `error` as it was. |
| WordAssignment.TextsUpTo | Assets/Scripts/MainController.cs:105-114 | Defines the texts of the non-null meshes of the first i holders, holder by holder and mesh by mesh, skipping null holders and null meshes. |
| WordAssignment.Texts | Assets/Scripts/MainController.cs:105-114 | Defines the texts of all non-null meshes in the order RandomizeWords visits them. |
| WordAssignment.Rank | Assets/Scripts/MainController.cs:105-114 | Defines a mesh's visit position: the number of non-null meshes visited before it. |
| WordAssignment.SameShape | Assets/Scripts/MainController.cs:105-124 | Defines "only texts changed": the same holders, the same null holders, the same meshes and the same null meshes. |
| WordAssignment.Next | Assets/Scripts/MainController.cs:118-120 | The cursor after one write stays below the list length. |
| WordAssignment.Advance | Assets/Scripts/MainController.cs:118-120 | The cursor after any number of writes stays below the list length. |
| WordAssignment.AdvanceAdd | Assets/Scripts/MainController.cs:118-120 | `a` writes followed by `b` writes move the cursor as `a + b` writes do. |
| WordAssignment.AdvanceFromZero | Assets/Scripts/MainController.cs:103-120 | Starting from 0, the cursor after k writes is `k % |words|`. |
| WordAssignment.CursorStep | Assets/Scripts/MainController.cs:118-120 | Incrementing and wrapping a cursor equal to `x % n` gives `(x + 1) % n`. |
| WordAssignment.Cycle | Assets/Scripts/MainController.cs:116-120 | `count` writes hand out exactly `count` words. |
| WordAssignment.CycleAppend | Assets/Scripts/MainController.cs:116-120 | Two consecutive stretches of writes join into one. |
| WordAssignment.CycleAt | Assets/Scripts/MainController.cs:103-120 | The k-th write from cursor 0 hands out `words[k % |words|]`. |
| WordAssignment.CycleOnlyWords | Assets/Scripts/MainController.cs:116 | Every word handed out is an element of the list. |
| WordAssignment.CycleCoverage | Assets/Scripts/MainController.cs:103-120 | Every word of the list is handed out at position `m * |words| + j` for every full round `m`. |
| WordAssignment.MeshTextsPrefix | Assets/Scripts/MainController.cs:111-114 | Visiting more meshes extends the visited texts and keeps the earlier ones. |
| WordAssignment.TextsPrefix | Assets/Scripts/MainController.cs:105-109 | Visiting more holders extends the visited texts and keeps the earlier ones. |
| WordAssignment.MeshTextsAt | Assets/Scripts/MainController.cs:111-114 | A non-null mesh's text sits in its holder's visited texts at the count of non-null meshes before it. |
| WordAssignment.TextsAt | Assets/Scripts/MainController.cs:105-114 | A non-null mesh's text sits in the visited texts at its `Rank`: holder order, then mesh order, skipping nulls. |
| WordAssignment.RankOrder | Assets/Scripts/MainController.cs:105-114 | A mesh visited earlier has a smaller `Rank`. |
| WordAssignment.SameMeshShapeCount | Assets/Scripts/MainController.cs:111-114 | Mesh arrays of the same shape have the same number of visited meshes in every prefix. |
| WordAssignment.SameShapeCount | Assets/Scripts/MainController.cs:105-114 | Holder arrays of the same shape have the same number of visited meshes in every prefix. |
| WordAssignment.SameShapeRank | Assets/Scripts/MainController.cs:105-114 | A mesh at the same place in two arrays of the same shape has the same `Rank`. |
| WordAssignment.MeshTextsUpdate | Assets/Scripts/MainController.cs:111-116 | Writing slot j leaves the texts of the slots before it unchanged. |
| WordAssignment.TextsUpdate | Assets/Scripts/MainController.cs:105-116 | Writing holder i leaves the texts of the holders before it unchanged. |
| WordAssignment.MeshTextsStep | Assets/Scripts/MainController.cs:111-116 | After slot j is written, the first j + 1 slots end with its text. |
| WordAssignment.TextsStep | Assets/Scripts/MainController.cs:105-116 | After holder i is written, the first i + 1 holders end with its texts. |
| WordAssignment.VisitMesh | Assets/Scripts/MainController.cs:111-120 | One inner-loop step extends the round-robin carried by the visited meshes. |
| WordAssignment.VisitHolder | Assets/Scripts/MainController.cs:105-124 | One outer-loop step extends the round-robin carried by the visited holders. |
| WordAssignment.AssignedAt | Assets/Scripts/MainController.cs:103-120 | After the assignment, every non-null mesh holds `words[Rank % |words|]`, an element of the shuffled list. |
| Dice.ShowsError | Assets/Scripts/MainController.cs:63 | Defines LoadData's condition for showing the loader's error: no word was loaded, or `error` is not "". |
| Dice.ErrorText.constructor | Assets/Scripts/MainController.cs:15 | The `errorText` UI element starts with the given text and panel flag. |
| Dice.FirstNull | Assets/Scripts/MainController.cs:82-86 | Gives the first unassigned die reached by the throwing loop: every entry before it is assigned, and the entry there, if any, is null. |
| Dice.AllAssignedIff | Assets/Scripts/MainController.cs:82-86 | The loop reaches the end of the dice array if and only if every entry is assigned. |
| Dice.LoadDataErrorIff | Assets/Scripts/MainController.cs:63-69 | With a fresh loader, LoadData shows an error if and only if no word was loaded. The text shown is the loader's message. |
| Dice.FillSlot | Assets/Scripts/MainController.cs:113-120 | A null mesh is skipped and the cursor stays. Any other mesh gets `words[cursor]`, and the cursor moves one step and wraps, staying below `|words|`. |
| Dice.FillMeshes | Assets/Scripts/MainController.cs:111-123 | The inner loop keeps the array's shape. Its non-null meshes carry the round-robin from the given cursor, and it returns the advanced cursor. |
| Dice.FillHolder | Assets/Scripts/MainController.cs:107-123 | A null or empty holder is returned unchanged with the cursor unmoved. Any other holder is filled by the inner loop. |
| Dice.FillHolders | Assets/Scripts/MainController.cs:103-124 | The nested loops keep every holder's and mesh's shape. The visited meshes carry the round-robin of the words from cursor 0. |
| Dice.MainController.constructor | Assets/Scripts/MainController.cs:13-23 | The inspector wiring is stored and the word list starts empty. |
| Dice.MainController.LoadData | Assets/Scripts/MainController.cs:59-71 | `words` becomes the loaded list. When it is empty or the loader reports an error, a wired error text is activated and shows the loader's error. Otherwise the text is left alone. |
| Dice.MainController.Roll | Assets/Scripts/MainController.cs:74-90 | With no dice array, or an empty one, the only effect is the error log. Otherwise each die before the first unassigned entry gets a force and then a torque, in list order. An unassigned entry ends the effects with NullReference and no sound. When every die is assigned, the sound follows if one is wired. |
| Dice.MainController.RandomizeWords | Assets/Scripts/MainController.cs:94-125 | With no words or no holder array, nothing changes. Otherwise `words` becomes the shuffle, every holder and mesh keeps its shape, and the non-null meshes in visit order hold the round-robin of the shuffle from word 0. |

The following lemmas are proof helpers and have no row. Each is a single
unfolding or a restatement used as a hint in the proofs above:
`WordAssignment.MeshTextsCount`, `WordAssignment.TextsCount`,
`WordAssignment.SameShapeUpdate`, `WordAssignment.SameMeshShapeUpdate`,
`WordAssignment.CycleJoin`, `WordAssignment.MulAtLeast`,
`WordAssignment.EuclidUnique` and `Loader.NonEmptyLinesSingle`.

## Left out

- File access (`File.Exists`, `StreamReader`, `Path.Combine`) is not modelled. The file is an input `Option<seq<string>>`, and `fullPath` is an input string, not built from a directory and a name.
- `Debug.LogError` when the loader hits the line cap is not modelled. It has no effect on the returned list or on `error`.
- `words.Shuffle()` is an extension method that is not part of this model. Its result is an input constrained only to be a permutation of the list, so nothing is claimed about how random it is.
- `FitTextMeshToCube` and `GetDieMeshWidth` are not modelled: they are floating-point geometry on renderer bounds. The model keeps only the text each mesh receives.
- `RandomNormalizedVector` is not modelled: it is engine randomness. The force and torque vectors, the force modes and the physics itself are not modelled either; `Roll` only records which body gets which impulse, in order.
- `Start` is not modelled. It only calls `GetDieMeshWidth`, `LoadData` and `RandomizeWords` in turn.
- The `force`, `torque` and `forceDirection` inspector fields are not modelled.
- `LoadData` shows the error by activating the parent game object; the model reduces that to a `panelActive` flag on the error text.
- Text meshes are values, not shared objects. Two holders referring to the same mesh are not modelled, so there is no aliasing between slots.
- `textMeshHolders[i]` being a null reference is not modelled. The source dereferences it without a check and would throw; the model's `Holder` is always an object whose `textMeshes` may be null.
- `words` is never null in the source: it starts as an empty list and the loader never returns null. The model's `words` is therefore a plain sequence, and the "words is null" guard of `RandomizeWords` reduces to its emptiness test.
- Dice.FillMeshes, Dice.FillHolders: the source writes `.text` on the meshes inside the holder array in place. The model writes each slot, then each holder, back into a sequence value that the method returns, and `RandomizeWords` stores that sequence in `textMeshHolders`.
