/**
 * Specification of the word-to-face assignment of MainController.RandomizeWords
 * (Assets/Scripts/MainController.cs). A text mesh is a value holding its
 * text; a holder stands for a TextMeshHolder's `textMeshes` array.
 */
module WordAssignment {

  /** An entry of a `textMeshes` array: a null reference or a text mesh. */
  datatype Slot = NullMesh | Mesh(text: string)

  /** A holder's `textMeshes` array: a null reference or the array's entries. */
  datatype Holder = NullMeshes | Meshes(slots: seq<Slot>)

  /** The text of a mesh slot, none for a null mesh. */
  function SlotTexts(m: Slot): seq<string>
  {
    match m
    case NullMesh => []
    case Mesh(text) => [text]
  }

  /** The texts of the non-null meshes among the first j, in mesh order. */
  function MeshTextsUpTo(ms: seq<Slot>, j: nat): seq<string>
    requires j <= |ms|
  {
    if j == 0 then [] else MeshTextsUpTo(ms, j - 1) + SlotTexts(ms[j - 1])
  }

  function MeshTexts(ms: seq<Slot>): seq<string>
  {
    MeshTextsUpTo(ms, |ms|)
  }

  /** The texts of a holder's non-null meshes; none for a null array. */
  function HolderTexts(h: Holder): seq<string>
  {
    match h
    case NullMeshes => []
    case Meshes(ms) => MeshTexts(ms)
  }

  /** The texts of the non-null meshes of the first i holders, in visit order. */
  function TextsUpTo(hs: seq<Holder>, i: nat): seq<string>
    requires i <= |hs|
  {
    if i == 0 then [] else TextsUpTo(hs, i - 1) + HolderTexts(hs[i - 1])
  }

  /**
   * The texts of all non-null meshes in the order RandomizeWords visits
   * them: holder order, then mesh order. Position k of this sequence is
   * the k-th mesh written.
   */
  function Texts(hs: seq<Holder>): seq<string>
  {
    TextsUpTo(hs, |hs|)
  }

  /**
   * The number of non-null meshes visited before mesh j of holder i, that
   * is, how far the word cursor has moved when that mesh is reached.
   */
  function Rank(hs: seq<Holder>, i: nat, j: nat): nat
    requires i < |hs| && hs[i].Meshes? && j <= |hs[i].slots|
  {
    |TextsUpTo(hs, i)| + |MeshTextsUpTo(hs[i].slots, j)|
  }

  /** Two mesh arrays have the same length and the same null entries. */
  predicate SameMeshShape(a: seq<Slot>, b: seq<Slot>)
  {
    |a| == |b| && forall j :: 0 <= j < |a| ==> (a[j].Mesh? <==> b[j].Mesh?)
  }

  predicate SameHolderShape(a: Holder, b: Holder)
  {
    if a.NullMeshes? then b.NullMeshes? else b.Meshes? && SameMeshShape(a.slots, b.slots)
  }

  /** Same holders, same null holders, same meshes, same null meshes. */
  predicate SameShape(a: seq<Holder>, b: seq<Holder>)
  {
    |a| == |b| && forall i :: 0 <= i < |a| ==> SameHolderShape(a[i], b[i])
  }

  // ---------------------------------------------------------------------
  // Round-robin words

  /** The word cursor after one write: the next index, wrapped to 0 at n. */
  function Next(cursor: nat, n: nat): (r: nat)
    requires cursor < n
    ensures r < n
  {
    if cursor + 1 >= n then 0 else cursor + 1
  }

  /** The word cursor after `steps` writes starting from `cursor`. */
  function Advance(cursor: nat, n: nat, steps: nat): (r: nat)
    requires cursor < n
    ensures r < n
  {
    if steps == 0 then cursor else Next(Advance(cursor, n, steps - 1), n)
  }

  /**
   * The words written by `count` consecutive writes with the cursor
   * starting at `cursor`: the word at the cursor, then the cursor moves on
   * and wraps to the front.
   */
  function Cycle(words: seq<string>, cursor: nat, count: nat): (r: seq<string>)
    requires cursor < |words|
    ensures |r| == count
  {
    if count == 0 then [] else Cycle(words, cursor, count - 1) + [words[Advance(cursor, |words|, count - 1)]]
  }

  /** `a` writes and then `b` more move the cursor as `a + b` writes do. */
  lemma {:induction false} AdvanceAdd(cursor: nat, n: nat, a: nat, b: nat)
    requires cursor < n
    ensures Advance(Advance(cursor, n, a), n, b) == Advance(cursor, n, a + b)
    decreases b
  {
    if b > 0 {
      AdvanceAdd(cursor, n, a, b - 1);
    }
  }

  /** Two consecutive stretches of writes join into one. */
  lemma {:induction false} CycleAppend(words: seq<string>, cursor: nat, a: nat, b: nat)
    requires cursor < |words|
    ensures Cycle(words, cursor, a) + Cycle(words, Advance(cursor, |words|, a), b) == Cycle(words, cursor, a + b)
    decreases b
  {
    if b > 0 {
      CycleAppend(words, cursor, a, b - 1);
      AdvanceAdd(cursor, |words|, a, b - 1);
    }
  }

  /** Starting at 0, the cursor after k writes is k mod n. */
  lemma {:induction false} AdvanceFromZero(n: nat, k: nat)
    requires n > 0
    ensures Advance(0, n, k) == k % n
    decreases k
  {
    if k > 0 {
      AdvanceFromZero(n, k - 1);
      CursorStep(n, k - 1, Advance(0, n, k - 1));
    }
  }

  /**
   * The closed form of the round-robin: the k-th write from cursor 0
   * writes words[k mod |words|].
   */
  lemma {:induction false} CycleAt(words: seq<string>, count: nat, k: nat)
    requires |words| > 0 && k < count
    ensures Cycle(words, 0, count)[k] == words[k % |words|]
    decreases count
  {
    if k < count - 1 {
      CycleAt(words, count - 1, k);
    } else {
      AdvanceFromZero(|words|, k);
    }
  }

  /** Advancing the cursor and wrapping it to 0 keeps it equal to the count mod n. */
  lemma CursorStep(n: nat, x: nat, cursor: nat)
    requires n > 0 && cursor == x % n
    ensures Next(cursor, n) == (x + 1) % n
  {
    var q := x / n;
    assert x == q * n + cursor;
    if cursor + 1 >= n {
      assert x + 1 == (q + 1) * n + 0;
      EuclidUnique(x + 1, n, q + 1, 0);
    } else {
      EuclidUnique(x + 1, n, q, cursor + 1);
    }
  }

  lemma MulAtLeast(d: int, n: int)
    requires d >= 1 && n > 0
    ensures d * n >= n
  {
  }

  /** The remainder of Euclidean division is the only one in [0, n). */
  lemma EuclidUnique(x: int, n: int, q: int, r: int)
    requires n > 0 && 0 <= r < n && x == q * n + r
    ensures x % n == r
  {
    var q', r' := x / n, x % n;
    assert x == q' * n + r';
    var d := q - q';
    assert d * n == r' - r by {
      assert q * n - q' * n == (q - q') * n;
    }
    if d >= 1 {
      MulAtLeast(d, n);
    } else if d <= -1 {
      MulAtLeast(-d, n);
    }
  }

  /** Every written word is an element of the word list. */
  lemma {:induction false} CycleOnlyWords(words: seq<string>, cursor: nat, count: nat)
    requires cursor < |words|
    ensures forall x :: x in Cycle(words, cursor, count) ==> x in words
    decreases count
  {
    if count > 0 {
      CycleOnlyWords(words, cursor, count - 1);
    }
  }

  /**
   * Each word of the list is written at least floor(count / |words|)
   * times: word j lands on every position m * |words| + j.
   */
  lemma CycleCoverage(words: seq<string>, count: nat, j: nat, m: nat)
    requires |words| > 0 && j < |words| && m < count / |words|
    ensures m * |words| + j < count
    ensures Cycle(words, 0, count)[m * |words| + j] == words[j]
  {
    var n := |words|;
    var q := count / n;
    assert count == q * n + count % n;
    MulAtLeast(q - m, n);
    assert q * n - m * n == (q - m) * n;
    EuclidUnique(m * n + j, n, m, j);
    CycleAt(words, count, m * n + j);
  }

  // ---------------------------------------------------------------------
  // Visit order

  /** The texts of the first j meshes start the texts of the first k. */
  lemma {:induction false} MeshTextsPrefix(ms: seq<Slot>, j: nat, k: nat)
    requires j <= k <= |ms|
    ensures MeshTextsUpTo(ms, j) <= MeshTextsUpTo(ms, k)
    decreases k
  {
    if j < k {
      MeshTextsPrefix(ms, j, k - 1);
    }
  }

  /** The texts of the first i holders start the texts of the first k. */
  lemma {:induction false} TextsPrefix(hs: seq<Holder>, i: nat, k: nat)
    requires i <= k <= |hs|
    ensures TextsUpTo(hs, i) <= TextsUpTo(hs, k)
    decreases k
  {
    if i < k {
      TextsPrefix(hs, i, k - 1);
    }
  }

  /** Mesh j of a mesh array is the Rank-th text of that array. */
  lemma MeshTextsAt(ms: seq<Slot>, j: nat)
    requires j < |ms| && ms[j].Mesh?
    ensures |MeshTextsUpTo(ms, j)| < |MeshTexts(ms)|
    ensures MeshTexts(ms)[|MeshTextsUpTo(ms, j)|] == ms[j].text
  {
    MeshTextsPrefix(ms, j + 1, |ms|);
  }

  /**
   * The k-th entry of Texts is the text of the mesh of Rank k: the visit
   * order of RandomizeWords is holder order, then mesh order, skipping
   * null holders and null meshes.
   */
  lemma TextsAt(hs: seq<Holder>, i: nat, j: nat)
    requires i < |hs| && hs[i].Meshes? && j < |hs[i].slots| && hs[i].slots[j].Mesh?
    ensures Rank(hs, i, j) < |Texts(hs)|
    ensures Texts(hs)[Rank(hs, i, j)] == hs[i].slots[j].text
  {
    MeshTextsAt(hs[i].slots, j);
    TextsPrefix(hs, i + 1, |hs|);
  }

  /** Of two non-null meshes, the one visited first has the smaller Rank. */
  lemma RankOrder(hs: seq<Holder>, i: nat, j: nat, i': nat, j': nat)
    requires i < |hs| && hs[i].Meshes? && j < |hs[i].slots| && hs[i].slots[j].Mesh?
    requires i' < |hs| && hs[i'].Meshes? && j' <= |hs[i'].slots|
    requires i < i' || (i == i' && j < j')
    ensures Rank(hs, i, j) < Rank(hs, i', j')
  {
    var ms := hs[i].slots;
    if i == i' {
      MeshTextsPrefix(ms, j + 1, j');
    } else {
      MeshTextsAt(ms, j);
      TextsPrefix(hs, i + 1, i');
    }
  }

  // ---------------------------------------------------------------------
  // Shape

  lemma {:induction false} SameMeshShapeCount(a: seq<Slot>, b: seq<Slot>, j: nat)
    requires SameMeshShape(a, b) && j <= |a|
    ensures |MeshTextsUpTo(a, j)| == |MeshTextsUpTo(b, j)|
    decreases j
  {
    if j > 0 {
      SameMeshShapeCount(a, b, j - 1);
    }
  }

  lemma {:induction false} SameShapeCount(a: seq<Holder>, b: seq<Holder>, i: nat)
    requires SameShape(a, b) && i <= |a|
    ensures |TextsUpTo(a, i)| == |TextsUpTo(b, i)|
    decreases i
  {
    if i > 0 {
      SameShapeCount(a, b, i - 1);
      var x, y := a[i - 1], b[i - 1];
      assert SameHolderShape(x, y);
      if x.Meshes? {
        SameMeshShapeCount(x.slots, y.slots, |x.slots|);
      }
    }
  }

  /** Meshes at the same place in two arrays of the same shape have the same Rank. */
  lemma SameShapeRank(a: seq<Holder>, b: seq<Holder>, i: nat, j: nat)
    requires SameShape(a, b)
    requires i < |a| && a[i].Meshes? && j <= |a[i].slots|
    ensures b[i].Meshes? && j <= |b[i].slots|
    ensures Rank(a, i, j) == Rank(b, i, j)
  {
    assert SameHolderShape(a[i], b[i]);
    SameShapeCount(a, b, i);
    SameMeshShapeCount(a[i].slots, b[i].slots, j);
  }

  /** Replacing a holder by one of its shape keeps the shape. */
  lemma SameShapeUpdate(a: seq<Holder>, b: seq<Holder>, i: nat, h: Holder)
    requires SameShape(a, b) && i < |a| && SameHolderShape(h, b[i])
    ensures SameShape(a[i := h], b)
  {
  }

  // ---------------------------------------------------------------------
  // Writing in place

  /** Writing slot j leaves the texts of the slots before it alone. */
  lemma {:induction false} MeshTextsUpdate(ms: seq<Slot>, j: nat, m: Slot, k: nat)
    requires k <= j < |ms|
    ensures MeshTextsUpTo(ms[j := m], k) == MeshTextsUpTo(ms, k)
    decreases k
  {
    if k > 0 {
      MeshTextsUpdate(ms, j, m, k - 1);
    }
  }

  /** Writing holder i leaves the texts of the holders before it alone. */
  lemma {:induction false} TextsUpdate(hs: seq<Holder>, i: nat, h: Holder, k: nat)
    requires k <= i < |hs|
    ensures TextsUpTo(hs[i := h], k) == TextsUpTo(hs, k)
    decreases k
  {
    if k > 0 {
      TextsUpdate(hs, i, h, k - 1);
    }
  }

  /** Slot j adds its own text, if any, to the count of texts before it. */
  lemma MeshTextsCount(ms: seq<Slot>, j: nat)
    requires j < |ms|
    ensures |MeshTextsUpTo(ms, j + 1)| == |MeshTextsUpTo(ms, j)| + |SlotTexts(ms[j])|
  {
  }

  /** Writing slot j and then reading the first j + 1 slots sees the new slot last. */
  lemma MeshTextsStep(ms: seq<Slot>, j: nat, m: Slot)
    requires j < |ms|
    ensures MeshTextsUpTo(ms[j := m], j + 1) == MeshTextsUpTo(ms, j) + SlotTexts(m)
  {
    MeshTextsUpdate(ms, j, m, j);
  }

  /**
   * One step of RandomizeWords' inner loop: once slot j is replaced by
   * `m`, carrying the next `b` words of the round-robin, the first j + 1
   * slots carry its first `visited + b` words.
   */
  lemma VisitMesh(words: seq<string>, cursor: nat, ms: seq<Slot>, j: nat, m: Slot, visited: nat, b: nat)
    requires cursor < |words| && j < |ms|
    requires MeshTextsUpTo(ms, j) == Cycle(words, cursor, visited)
    requires SlotTexts(m) == Cycle(words, Advance(cursor, |words|, visited), b)
    ensures MeshTextsUpTo(ms[j := m], j + 1) == Cycle(words, cursor, visited + b)
  {
    MeshTextsStep(ms, j, m);
    CycleJoin(words, cursor, MeshTextsUpTo(ms, j), SlotTexts(m), visited, b);
  }

  /** Replacing a slot by one that is null exactly when it was keeps the shape. */
  lemma SameMeshShapeUpdate(a: seq<Slot>, b: seq<Slot>, j: nat, m: Slot)
    requires SameMeshShape(a, b) && j < |a| && (m.Mesh? <==> b[j].Mesh?)
    ensures SameMeshShape(a[j := m], b)
  {
  }

  /** Writing holder i and then reading the first i + 1 holders sees the new holder last. */
  lemma TextsStep(hs: seq<Holder>, i: nat, h: Holder)
    requires i < |hs|
    ensures TextsUpTo(hs[i := h], i + 1) == TextsUpTo(hs, i) + HolderTexts(h)
  {
    TextsUpdate(hs, i, h, i);
  }

  /** Two consecutive stretches of the round-robin make one. */
  lemma CycleJoin(words: seq<string>, cursor: nat, x: seq<string>, y: seq<string>, a: nat, b: nat)
    requires cursor < |words|
    requires x == Cycle(words, cursor, a) && y == Cycle(words, Advance(cursor, |words|, a), b)
    ensures x + y == Cycle(words, cursor, a + b)
  {
    CycleAppend(words, cursor, a, b);
  }

  /** Holder i adds its own texts to the count of texts before it. */
  lemma TextsCount(hs: seq<Holder>, i: nat)
    requires i < |hs|
    ensures |TextsUpTo(hs, i + 1)| == |TextsUpTo(hs, i)| + |HolderTexts(hs[i])|
  {
  }

  /**
   * One step of RandomizeWords' outer loop: once holder i is replaced by
   * `h`, carrying the next `b` words of the round-robin, the first i + 1
   * holders carry its first `visited + b` words.
   */
  lemma VisitHolder(words: seq<string>, hs: seq<Holder>, i: nat, h: Holder, visited: nat, b: nat)
    requires |words| > 0 && i < |hs|
    requires TextsUpTo(hs, i) == Cycle(words, 0, visited)
    requires HolderTexts(h) == Cycle(words, Advance(0, |words|, visited), b)
    ensures TextsUpTo(hs[i := h], i + 1) == Cycle(words, 0, visited + b)
  {
    TextsStep(hs, i, h);
    CycleJoin(words, 0, TextsUpTo(hs, i), HolderTexts(h), visited, b);
  }

  /**
   * The closed form of RandomizeWords: if `after` has the shape of `before`
   * and its visited texts are the round-robin of `words`, then every
   * non-null mesh holds words[k mod |words|], k being its Rank.
   */
  lemma AssignedAt(before: seq<Holder>, after: seq<Holder>, words: seq<string>, i: nat, j: nat)
    requires |words| > 0
    requires SameShape(after, before) && Texts(after) == Cycle(words, 0, |Texts(before)|)
    requires i < |before| && before[i].Meshes? && j < |before[i].slots| && before[i].slots[j].Mesh?
    ensures after[i].Meshes? && j < |after[i].slots| && after[i].slots[j].Mesh?
    ensures after[i].slots[j].text == words[Rank(before, i, j) % |words|]
  {
    assert SameHolderShape(after[i], before[i]);
    SameShapeRank(before, after, i, j);
    TextsAt(after, i, j);
    CycleAt(words, |Texts(before)|, Rank(before, i, j));
  }
}
