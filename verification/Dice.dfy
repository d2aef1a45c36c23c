/**
 * The MainController script of Assets/Scripts/MainController.cs: loading
 * the word list, refusing a roll without dice, and writing the shuffled
 * words onto the dice faces round-robin.
 */
module Dice {
  import opened Wrappers
  import opened Loader
  import opened WordAssignment

  /** A die's rigid body, identified by its position in the inspector list. */
  datatype Rigidbody = Rigidbody(id: nat)

  /**
   * The index of the first unassigned (null) entry of an inspector list of
   * dice, or its length when every entry is assigned.
   */
  function FirstNull(dice: seq<Option<Rigidbody>>): (r: nat)
    ensures r <= |dice|
    ensures forall k :: 0 <= k < r ==> dice[k].Some?
    ensures r < |dice| ==> dice[r].None?
  {
    if dice == [] || dice[0].None? then 0 else 1 + FirstNull(dice[1..])
  }

  /** FirstNull reaches the end of the list exactly when no entry is null. */
  lemma AllAssignedIff(dice: seq<Option<Rigidbody>>)
    ensures FirstNull(dice) == |dice| <==> forall k :: 0 <= k < |dice| ==> dice[k].Some?
  {
    if FirstNull(dice) < |dice| {
      assert dice[FirstNull(dice)].None?;
    }
  }

  datatype AudioSource = AudioSource

  /**
   * What Roll asks of the engine, in order. The force and torque vectors
   * are not modelled. NullReference is the exception thrown by touching an
   * unassigned die; nothing follows it.
   */
  datatype Effect =
    | LogError(message: string)
    | AddForce(body: Rigidbody)
    | AddTorque(body: Rigidbody)
    | PlaySound
    | NullReference

  const DiceNotAssigned: string := "dice rigidbodies not assigned in inspector."

  /** The UI text that shows a load error, with its parent panel's active flag. */
  class ErrorText {
    var text: string
    var panelActive: bool

    constructor (text: string, panelActive: bool)
      ensures this.text == text && this.panelActive == panelActive
    {
      this.text := text;
      this.panelActive := panelActive;
    }
  }

  /** LoadData's condition for showing the loader's error. */
  predicate ShowsError(words: seq<string>, error: string)
  {
    words == [] || error != ""
  }

  /**
   * With a fresh loader, LoadData shows an error exactly when no word was
   * loaded, and the text shown names the path and whether the file exists.
   */
  lemma LoadDataErrorIff(fullPath: string, file: Option<seq<string>>)
    ensures ShowsError(LoadedLines(file), ErrorAfterLoad("", fullPath, file)) <==> LoadedLines(file) == []
    ensures ShowsError(LoadedLines(file), ErrorAfterLoad("", fullPath, file)) ==>
              ErrorAfterLoad("", fullPath, file) == ErrorMessage(fullPath, file.Some?)
  {
    FreshLoadErrorIff(fullPath, file);
  }

  /**
   * One pass of RandomizeWords' inner loop: a null mesh is skipped; any
   * other receives the word at the cursor, and the cursor moves on,
   * wrapping to 0 at the end of the word list.
   */
  method FillSlot(words: seq<string>, mesh: Slot, cursor: nat) returns (filled: Slot, next: nat)
    requires cursor < |words|
    ensures filled.Mesh? <==> mesh.Mesh?
    ensures mesh.NullMesh? ==> filled == mesh && next == cursor
    ensures mesh.Mesh? ==> filled == Mesh(words[cursor])
    ensures next < |words|
    ensures SlotTexts(filled) == Cycle(words, cursor, |SlotTexts(mesh)|)
    ensures next == Advance(cursor, |words|, |SlotTexts(mesh)|)
  {
    if mesh.NullMesh? {
      return mesh, cursor;
    }
    filled := Mesh(words[cursor]);
    next := cursor + 1;
    if next >= |words| {
      next := 0;
    }
  }

  /**
   * The inner loop of RandomizeWords over one holder's `textMeshes`,
   * writing each slot back in place.
   */
  method FillMeshes(words: seq<string>, meshes: seq<Slot>, cursor: nat)
    returns (filled: seq<Slot>, next: nat)
    requires cursor < |words|
    ensures SameMeshShape(filled, meshes)
    ensures next < |words|
    ensures MeshTexts(filled) == Cycle(words, cursor, |MeshTexts(meshes)|)
    ensures next == Advance(cursor, |words|, |MeshTexts(meshes)|)
  {
    var n := |words|;
    filled := meshes;
    var wordsIndex := cursor;
    ghost var visited := 0;
    for j := 0 to |filled|
      invariant SameMeshShape(filled, meshes)
      invariant forall k :: j <= k < |filled| ==> filled[k] == meshes[k]
      invariant visited == |MeshTextsUpTo(meshes, j)|
      invariant MeshTextsUpTo(filled, j) == Cycle(words, cursor, visited)
      invariant wordsIndex == Advance(cursor, n, visited)
    {
      var current := filled[j];
      assert current == meshes[j];
      var mesh, after := FillSlot(words, current, wordsIndex);
      ghost var b := |SlotTexts(current)|;
      VisitMesh(words, cursor, filled, j, mesh, visited, b);
      AdvanceAdd(cursor, n, visited, b);
      assert after == Advance(cursor, n, visited + b);
      MeshTextsCount(meshes, j);
      SameMeshShapeUpdate(filled, meshes, j, mesh);
      filled := filled[j := mesh];
      wordsIndex := after;
      visited := visited + b;
    }
    next := wordsIndex;
  }

  /**
   * One pass of RandomizeWords' outer loop: a holder whose mesh array is
   * null or empty is skipped, the others are filled by FillMeshes.
   */
  method FillHolder(words: seq<string>, holder: Holder, cursor: nat) returns (filled: Holder, next: nat)
    requires cursor < |words|
    ensures SameHolderShape(filled, holder)
    ensures holder.NullMeshes? || |holder.slots| == 0 ==> filled == holder && next == cursor
    ensures next < |words|
    ensures HolderTexts(filled) == Cycle(words, cursor, |HolderTexts(holder)|)
    ensures next == Advance(cursor, |words|, |HolderTexts(holder)|)
  {
    if holder.NullMeshes? || |holder.slots| <= 0 {
      return holder, cursor;
    }
    var ms;
    ms, next := FillMeshes(words, holder.slots, cursor);
    filled := Meshes(ms);
  }

  /**
   * The outer loop of RandomizeWords: visits the holders in order with
   * the cursor starting at word 0, and writes each back in place.
   */
  method FillHolders(words: seq<string>, holders: seq<Holder>) returns (filled: seq<Holder>)
    requires |words| > 0
    ensures SameShape(filled, holders)
    ensures Texts(filled) == Cycle(words, 0, |Texts(holders)|)
  {
    var n := |words|;
    filled := holders;
    var wordsIndex := 0;
    ghost var visited := 0;
    for i := 0 to |filled|
      invariant SameShape(filled, holders)
      invariant forall k :: i <= k < |filled| ==> filled[k] == holders[k]
      invariant visited == |TextsUpTo(holders, i)|
      invariant TextsUpTo(filled, i) == Cycle(words, 0, visited)
      invariant wordsIndex == Advance(0, n, visited)
    {
      var current := filled[i];
      assert current == holders[i];
      var holder, next := FillHolder(words, current, wordsIndex);
      ghost var b := |HolderTexts(current)|;
      VisitHolder(words, filled, i, holder, visited, b);
      AdvanceAdd(0, n, visited, b);
      assert next == Advance(0, n, visited + b);
      TextsCount(holders, i);
      SameShapeUpdate(filled, holders, i, holder);
      filled := filled[i := holder];
      wordsIndex := next;
      visited := visited + b;
    }
  }

  class MainController {
    var words: seq<string>
    var textMeshHolders: Option<seq<Holder>>
    var dice: Option<seq<Option<Rigidbody>>>
    var diceSound: Option<AudioSource>
    var errorText: ErrorText?

    /** The inspector wiring; the word list starts empty. */
    constructor (dice: Option<seq<Option<Rigidbody>>>, textMeshHolders: Option<seq<Holder>>,
                 errorText: ErrorText?, diceSound: Option<AudioSource>)
      ensures this.dice == dice && this.textMeshHolders == textMeshHolders
      ensures this.errorText == errorText && this.diceSound == diceSound
      ensures words == []
    {
      this.dice := dice;
      this.textMeshHolders := textMeshHolders;
      this.errorText := errorText;
      this.diceSound := diceSound;
      words := [];
    }

    /**
     * Loads the words through a fresh DataController and, when the list is
     * empty or the loader reports an error, shows that error if an error
     * text is wired.
     */
    method LoadData(fullPath: string, file: Option<seq<string>>)
      modifies this`words, errorText
      ensures words == LoadedLines(file)
      ensures errorText != null && ShowsError(words, ErrorAfterLoad("", fullPath, file)) ==>
                errorText.panelActive && errorText.text == ErrorAfterLoad("", fullPath, file)
      ensures errorText != null && !ShowsError(words, ErrorAfterLoad("", fullPath, file)) ==>
                errorText.panelActive == old(errorText.panelActive) && errorText.text == old(errorText.text)
    {
      var dataController := new DataController();
      var lines;
      ghost var linesConsumed;
      lines, linesConsumed := dataController.GetFileLines(fullPath, file);
      words := lines;
      if words == [] || dataController.error != "" {
        if errorText != null {
          errorText.panelActive := true;
          errorText.text := dataController.error;
        }
      }
    }

    /**
     * Throws every die: a force and a torque impulse per die, in list
     * order, then the dice sound if one is wired. Without dice it only
     * logs an error. An unassigned entry throws when it is reached: the
     * dice before it have had their impulses, and the sound is not played.
     */
    method Roll() returns (effects: seq<Effect>)
      ensures dice.None? || |dice.value| == 0 ==> effects == [LogError(DiceNotAssigned)]
      ensures dice.Some? && |dice.value| > 0 ==> |effects| >= 2 * FirstNull(dice.value)
      ensures dice.Some? && |dice.value| > 0 ==>
                forall k :: 0 <= k < FirstNull(dice.value) ==>
                  effects[2 * k] == AddForce(dice.value[k].value) &&
                  effects[2 * k + 1] == AddTorque(dice.value[k].value)
      ensures dice.Some? && FirstNull(dice.value) < |dice.value| ==>
                |effects| == 2 * FirstNull(dice.value) + 1 && effects[|effects| - 1] == NullReference
      ensures dice.Some? && 0 < FirstNull(dice.value) == |dice.value| ==>
                |effects| == 2 * |dice.value| + (if diceSound.Some? then 1 else 0)
      ensures dice.Some? && 0 < FirstNull(dice.value) == |dice.value| && diceSound.Some? ==>
                effects[|effects| - 1] == PlaySound
    {
      if dice.None? || |dice.value| <= 0 {
        effects := [LogError(DiceNotAssigned)];
        return;
      }
      var bodies := dice.value;
      effects := [];
      for i := 0 to |bodies|
        invariant i <= FirstNull(bodies)
        invariant |effects| == 2 * i
        invariant forall k :: 0 <= k < i ==>
                    effects[2 * k] == AddForce(bodies[k].value) && effects[2 * k + 1] == AddTorque(bodies[k].value)
      {
        if bodies[i].None? {
          effects := effects + [NullReference];
          return;
        }
        var item := bodies[i].value;
        effects := effects + [AddForce(item), AddTorque(item)];
      }
      if diceSound.Some? {
        effects := effects + [PlaySound];
      }
    }

    /**
     * Replaces the word list by its shuffle (`shuffled`, a permutation of
     * it chosen by the caller) and writes the words round-robin onto every
     * non-null mesh, skipping null or empty holders and null meshes. With
     * no word or no holder array nothing changes.
     */
    method RandomizeWords(shuffled: seq<string>)
      requires multiset(shuffled) == multiset(words)
      modifies this`words, this`textMeshHolders
      ensures old(words) == [] || old(textMeshHolders).None? ==>
                words == old(words) && textMeshHolders == old(textMeshHolders)
      ensures old(words) != [] && old(textMeshHolders).Some? ==>
                words == shuffled && textMeshHolders.Some? &&
                SameShape(textMeshHolders.value, old(textMeshHolders).value) &&
                Texts(textMeshHolders.value) == Cycle(shuffled, 0, |Texts(old(textMeshHolders).value)|)
    {
      if words == [] {
        return;
      }
      if textMeshHolders.None? {
        return;
      }
      words := shuffled;
      assert |words| == |multiset(words)| > 0;
      var hs := FillHolders(words, textMeshHolders.value);
      textMeshHolders := Some(hs);
    }
  }
}
