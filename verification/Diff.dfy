/** QUnit.diff: words of an old and a new text are linked in three passes over two arrays. */
module Diff {

  /** A word, or a word linked to a row of the other text. */
  datatype Entry = Word(text: string) | Linked(text: string, row: nat)

  function Texts(es: seq<Entry>): (r: seq<string>)
    ensures |r| == |es| && forall i :: 0 <= i < |es| ==> r[i] == es[i].text
  {
    seq(|es|, i requires 0 <= i < |es| => es[i].text)
  }

  /** Links go both ways between equal words. */
  ghost predicate Mutual(o: seq<Entry>, n: seq<Entry>) {
    && (forall j :: 0 <= j < |n| && n[j].Linked? ==> n[j].row < |o| && o[n[j].row] == Linked(n[j].text, j))
    && (forall r :: 0 <= r < |o| && o[r].Linked? ==> o[r].row < |n| && n[o[r].row] == Linked(o[r].text, r))
  }

  /** The positions of a word, in order. */
  function Positions(ws: seq<string>, w: string): seq<nat> {
    if ws == [] then []
    else Positions(ws[..|ws| - 1], w) + if ws[|ws| - 1] == w then [|ws| - 1] else []
  }

  /** `w` is written once in each text. */
  predicate UniqueInBoth(ow: seq<string>, nw: seq<string>, w: string) {
    |Positions(ow, w)| == 1 && |Positions(nw, w)| == 1
  }

  /** The link at `i` can be extended to the words that follow on both sides. */
  predicate ExtendsForward(o: seq<Entry>, n: seq<Entry>, i: int) {
    && 0 <= i < |n| - 1 && n[i].Linked? && n[i + 1].Word?
    && n[i].row + 1 < |o| && o[n[i].row + 1].Word? && n[i + 1].text == o[n[i].row + 1].text
  }

  /** And to the words that come before on both sides. */
  predicate ExtendsBackward(o: seq<Entry>, n: seq<Entry>, i: int) {
    && 0 < i < |n| && n[i].Linked? && n[i - 1].Word?
    && 0 < n[i].row <= |o| && o[n[i].row - 1].Word? && n[i - 1].text == o[n[i].row - 1].text
  }

  /** The new words from `j` to `k`, whichever comes first, are linked to old words in a row. */
  ghost predicate InARow(n: seq<Entry>, j: nat, k: nat) {
    && j < |n| && k < |n| && n[j].Linked?
    && forall i :: (j <= i <= k || k <= i <= j) ==> n[i].Linked? && n[i].row - i == n[j].row - j
  }

  ghost predicate AnchoredAt(n: seq<Entry>, ow: seq<string>, nw: seq<string>, j: nat) {
    exists k: nat :: InARow(n, j, k) && UniqueInBoth(ow, nw, n[k].text)
  }

  /** No word is linked without reason: from every linked word an unbroken row of links leads to a word
      that is written once in each text. */
  ghost predicate Anchored(n: seq<Entry>, ow: seq<string>, nw: seq<string>) {
    forall j {:trigger AnchoredAt(n, ow, nw, j)} :: 0 <= j < |n| && n[j].Linked? ==> AnchoredAt(n, ow, nw, j)
  }

  /** A word next to a linked one joins its row. */
  lemma {:induction false} JoinsRow(n: seq<Entry>, ow: seq<string>, nw: seq<string>, r: nat, j: nat, i: nat)
    requires Anchored(n, ow, nw) && j < |n| && i < |n| && n[j].Word? && n[i].Linked?
    requires (i == j - 1 || i == j + 1) && n[i].row - i == r - j
    ensures Anchored(n[j := Linked(n[j].text, r)], ow, nw)
  {
    var n' := n[j := Linked(n[j].text, r)];
    forall m | 0 <= m < |n| && n'[m].Linked? ensures AnchoredAt(n', ow, nw, m) {
      if m != j {
        StaysInRow(n, ow, nw, j, n'[j], m);
      } else {
        StaysInRow(n, ow, nw, j, n'[j], i);
        var k: nat :| InARow(n', i, k) && UniqueInBoth(ow, nw, n'[k].text);
        assert InARow(n', j, k);
      }
    }
  }

  /** Rows are not broken by a change to a word outside them. */
  lemma StaysInRow(n: seq<Entry>, ow: seq<string>, nw: seq<string>, j: nat, e: Entry, m: nat)
    requires Anchored(n, ow, nw) && j < |n| && m < |n| && n[j].Word? && n[m].Linked?
    ensures AnchoredAt(n[j := e], ow, nw, m)
  {
    assert AnchoredAt(n, ow, nw, m);
    var k: nat :| InARow(n, m, k) && UniqueInBoth(ow, nw, n[k].text);
    assert InARow(n[j := e], m, k);
  }

  /** The links made from words that are written once. */
  lemma UniquesAreAnchored(n: seq<Entry>, ow: seq<string>, nw: seq<string>)
    requires forall j :: 0 <= j < |n| && n[j].Linked? ==> UniqueInBoth(ow, nw, n[j].text)
    ensures Anchored(n, ow, nw)
  {
    forall j | 0 <= j < |n| && n[j].Linked? ensures AnchoredAt(n, ow, nw, j) {
      assert InARow(n, j, j);
    }
  }

  lemma {:induction false} PositionsAre(ws: seq<string>, w: string)
    ensures forall p :: p in Positions(ws, w) <==> 0 <= p < |ws| && ws[p] == w
  {
    if ws != [] {
      PositionsAre(ws[..|ws| - 1], w);
    }
  }

  /** `rows` maps the words of `ws` to their positions. */
  ghost predicate Indexed(rows: map<string, seq<nat>>, ws: seq<string>) {
    && (forall w :: w in rows <==> Positions(ws, w) != [])
    && (forall w :: w in rows ==> rows[w] == Positions(ws, w))
  }

  lemma IndexedStep(rows: map<string, seq<nat>>, ws: seq<string>, w: string)
    requires Indexed(rows, ws)
    ensures Indexed(rows[w := Positions(ws, w) + [|ws|]], ws + [w])
  {
    assert (ws + [w])[..|ws|] == ws;
  }

  /** The words of a text and where each is. */
  method Index(words: array<Entry>) returns (rows: map<string, seq<nat>>)
    ensures Indexed(rows, Texts(words[..]))
  {
    rows := map[];
    ghost var ws := Texts(words[..]);
    for i := 0 to words.Length
      invariant Indexed(rows, ws[..i])
    {
      var w := words[i].text;
      IndexedStep(rows, ws[..i], w);
      assert ws[..i] + [w] == ws[..i + 1];
      if w !in rows {
        rows := rows[w := []];
      }
      rows := rows[w := rows[w] + [i]];
    }
    assert ws[..words.Length] == ws;
  }

  /** Link row `r` of the old text and row `j` of the new one. */
  method LinkRows(o: array<Entry>, n: array<Entry>, r: nat, j: nat)
    requires o != n && r < o.Length && j < n.Length
    requires o[r].Word? && n[j].Word? && o[r].text == n[j].text && Mutual(o[..], n[..])
    modifies o, n
    ensures o[..] == old(o[..])[r := Linked(old(o[r].text), j)]
    ensures n[..] == old(n[..])[j := Linked(old(n[j].text), r)]
    ensures Mutual(o[..], n[..]) && Texts(o[..]) == old(Texts(o[..])) && Texts(n[..]) == old(Texts(n[..]))
  {
    n[j] := Linked(n[j].text, r);
    o[r] := Linked(o[r].text, j);
  }

  /** The links of `before` are still there in `after`. */
  ghost predicate Grown(before: seq<Entry>, after: seq<Entry>) {
    && Texts(after) == Texts(before)
    && forall i :: 0 <= i < |before| && before[i].Linked? ==> after[i] == before[i]
  }

  method LinkWords(o: array<Entry>, n: array<Entry>)
    requires o != n
    requires (forall i :: 0 <= i < o.Length ==> o[i].Word?) && (forall i :: 0 <= i < n.Length ==> n[i].Word?)
    modifies o, n
    ensures Texts(o[..]) == old(Texts(o[..])) && Texts(n[..]) == old(Texts(n[..]))
    ensures Mutual(o[..], n[..])
    ensures UniquesLinked(o[..], n[..]) && Anchored(n[..], Texts(o[..]), Texts(n[..]))
    ensures forall i :: !ExtendsForward(o[..], n[..], i) && !ExtendsBackward(o[..], n[..], i)
  {
    LinkUniques(o, n);
    label linked:
    ghost var o1, n1 := o[..], n[..];
    ExtendLinks(o, n);
    ghost var o2, n2 := o[..], n[..];
    ExtendBack(o, n);
    UniquesStay(o1, n1, o2, n2);
    UniquesStay(o2, n2, o[..], n[..]);
  }

  /** Every word written once in each text is linked to itself. */
  ghost predicate UniquesLinked(o: seq<Entry>, n: seq<Entry>) {
    forall r, j :: (0 <= r < |o| && 0 <= j < |n| && o[r].text == n[j].text
                    && UniqueInBoth(Texts(o), Texts(n), o[r].text)) ==> n[j] == Linked(n[j].text, r)
  }

  lemma UniquesStay(o: seq<Entry>, n: seq<Entry>, o': seq<Entry>, n': seq<Entry>)
    requires UniquesLinked(o, n) && Grown(o, o') && Grown(n, n')
    ensures UniquesLinked(o', n')
  {
    forall r, j | 0 <= r < |o'| && 0 <= j < |n'| && o'[r].text == n'[j].text
                  && UniqueInBoth(Texts(o'), Texts(n'), o'[r].text)
      ensures n'[j] == Linked(n'[j].text, r)
    {
      assert Texts(o)[r] == Texts(o')[r] && Texts(n)[j] == Texts(n')[j];
      assert n[j] == Linked(n[j].text, r);
    }
  }

  /** First pass: link the words that are unique on both sides, in whatever order they come. */
  method LinkUniques(o: array<Entry>, n: array<Entry>)
    requires o != n
    requires (forall i :: 0 <= i < o.Length ==> o[i].Word?) && (forall i :: 0 <= i < n.Length ==> n[i].Word?)
    modifies o, n
    ensures Texts(o[..]) == old(Texts(o[..])) && Texts(n[..]) == old(Texts(n[..]))
    ensures Mutual(o[..], n[..]) && UniquesLinked(o[..], n[..]) && Anchored(n[..], Texts(o[..]), Texts(n[..]))
  {
    ghost var ow, nw := Texts(o[..]), Texts(n[..]);
    var ns := Index(n);
    var os := Index(o);
    var todo := ns.Keys;
    while todo != {}
      invariant Texts(o[..]) == ow && Texts(n[..]) == nw && todo <= ns.Keys
      invariant Mutual(o[..], n[..]) && LinkedBut(o[..], n[..], todo)
    {
      var w :| w in todo;
      PositionsAre(nw, w);
      PositionsAre(ow, w);
      if |ns[w]| == 1 && w in os && |os[w]| == 1 {
        var j, r := ns[w][0], os[w][0];
        assert j in Positions(nw, w) && r in Positions(ow, w);
        assert o[r].text == ow[r] && n[j].text == nw[j];
        LinkOne(o[..], n[..], todo, w, r, j);
        LinkRows(o, n, r, j);
      } else {
        SkipOne(o[..], n[..], todo, w);
      }
      todo := todo - {w};
    }
    AllLinked(o[..], n[..]);
    UniquesAreAnchored(n[..], ow, nw);
  }

  /** Words in `todo` are not linked yet; of those outside it exactly the unique ones are. */
  ghost predicate LinkedBut(o: seq<Entry>, n: seq<Entry>, todo: set<string>) {
    && (forall j :: 0 <= j < |n| && n[j].Linked? ==> UniqueInBoth(Texts(o), Texts(n), n[j].text))
    && (forall r :: 0 <= r < |o| && o[r].text in todo ==> o[r].Word?)
    && (forall j :: 0 <= j < |n| && n[j].text in todo ==> n[j].Word?)
    && (forall r, j :: (0 <= r < |o| && 0 <= j < |n| && o[r].text == n[j].text && n[j].text !in todo
                        && UniqueInBoth(Texts(o), Texts(n), o[r].text)) ==> n[j] == Linked(n[j].text, r))
  }

  lemma LinkOne(o: seq<Entry>, n: seq<Entry>, todo: set<string>, w: string, r: nat, j: nat)
    requires LinkedBut(o, n, todo) && w in todo && r < |o| && j < |n| && o[r].text == w == n[j].text
    requires UniqueInBoth(Texts(o), Texts(n), w)
    ensures LinkedBut(o[r := Linked(w, j)], n[j := Linked(w, r)], todo - {w})
  {
    var o', n' := o[r := Linked(w, j)], n[j := Linked(w, r)];
    assert Texts(o') == Texts(o) && Texts(n') == Texts(n);
    OnlyOne(Texts(o), w, r);
    OnlyOne(Texts(n), w, j);
    assert forall q :: 0 <= q < |o| && q != r ==> o[q].text != w by {
      assert forall q :: 0 <= q < |o| ==> Texts(o)[q] == o[q].text;
    }
    assert forall q :: 0 <= q < |n| && q != j ==> n[q].text != w by {
      assert forall q :: 0 <= q < |n| ==> Texts(n)[q] == n[q].text;
    }
  }

  lemma SkipOne(o: seq<Entry>, n: seq<Entry>, todo: set<string>, w: string)
    requires LinkedBut(o, n, todo) && !UniqueInBoth(Texts(o), Texts(n), w)
    ensures LinkedBut(o, n, todo - {w})
  {
  }

  lemma AllLinked(o: seq<Entry>, n: seq<Entry>)
    requires LinkedBut(o, n, {})
    ensures UniquesLinked(o, n)
    ensures forall j :: 0 <= j < |n| && n[j].Linked? ==> UniqueInBoth(Texts(o), Texts(n), n[j].text)
  {
  }

  lemma OnlyOne(ws: seq<string>, w: string, p: nat)
    requires |Positions(ws, w)| == 1 && p < |ws| && ws[p] == w
    ensures forall q :: 0 <= q < |ws| && ws[q] == w ==> q == p
  {
    PositionsAre(ws, w);
    forall q | 0 <= q < |ws| && ws[q] == w ensures q == p {
      assert q in Positions(ws, w) && p in Positions(ws, w);
    }
  }

  /** Second pass, left to right. */
  method ExtendLinks(o: array<Entry>, n: array<Entry>)
    requires o != n && Mutual(o[..], n[..]) && Anchored(n[..], Texts(o[..]), Texts(n[..]))
    modifies o, n
    ensures Mutual(o[..], n[..]) && Grown(old(o[..]), o[..]) && Grown(old(n[..]), n[..])
    ensures Anchored(n[..], Texts(o[..]), Texts(n[..]))
    ensures forall i :: !ExtendsForward(o[..], n[..], i)
  {
    var i := 0;
    while i < n.Length - 1
      invariant 0 <= i && (i <= n.Length - 1 || n.Length == 0)
      invariant Mutual(o[..], n[..]) && Grown(old(o[..]), o[..]) && Grown(old(n[..]), n[..])
      invariant Anchored(n[..], Texts(o[..]), Texts(n[..]))
      invariant ForwardDone(o[..], n[..], i)
    {
      StepForward(o, n, i);
      i := i + 1;
    }
  }

  /** No link before position `i` extends forward. */
  ghost predicate ForwardDone(o: seq<Entry>, n: seq<Entry>, i: int) {
    forall k :: k < i ==> !ExtendsForward(o, n, k)
  }

  lemma ForwardDoneStays(o: seq<Entry>, n: seq<Entry>, r: nat, j: nat)
    requires 0 < r < |o| && 0 < j < |n| && o[r].Word? && n[j].Word? && ForwardDone(o, n, j - 1)
    ensures ForwardDone(o[r := Linked(o[r].text, j)], n[j := Linked(n[j].text, r)], j)
  {
    var o', n' := o[r := Linked(o[r].text, j)], n[j := Linked(n[j].text, r)];
    forall k | k < j ensures !ExtendsForward(o', n', k) {
      assert k < j - 1 ==> !ExtendsForward(o, n, k);
    }
  }

  method StepForward(o: array<Entry>, n: array<Entry>, i: int)
    requires o != n && Mutual(o[..], n[..]) && 0 <= i < n.Length - 1 && ForwardDone(o[..], n[..], i)
    requires Anchored(n[..], Texts(o[..]), Texts(n[..]))
    modifies o, n
    ensures Mutual(o[..], n[..]) && Grown(old(o[..]), o[..]) && Grown(old(n[..]), n[..])
    ensures Anchored(n[..], Texts(o[..]), Texts(n[..]))
    ensures ForwardDone(o[..], n[..], i + 1)
  {
    if n[i].Linked? && n[i + 1].Word? && n[i].row + 1 < o.Length && o[n[i].row + 1].Word?
       && n[i + 1].text == o[n[i].row + 1].text {
      ForwardDoneStays(o[..], n[..], n[i].row + 1, i + 1);
      JoinsRow(n[..], Texts(o[..]), Texts(n[..]), n[i].row + 1, i + 1, i);
      LinkRows(o, n, n[i].row + 1, i + 1);
    } else {
      assert !ExtendsForward(o[..], n[..], i);
    }
  }

  /** Linking next to a link opens no forward extension. */
  lemma ForwardStays(o: seq<Entry>, n: seq<Entry>, r: nat, j: nat, k: int)
    requires r < |o| && j + 1 < |n| && o[r].Word? && n[j].Word? && n[j + 1].Linked?
    requires !ExtendsForward(o, n, k)
    ensures !ExtendsForward(o[r := Linked(o[r].text, j)], n[j := Linked(n[j].text, r)], k)
  {
  }

  /** Nor a backward one at or after that link. */
  lemma BackwardStays(o: seq<Entry>, n: seq<Entry>, r: nat, j: nat, k: int)
    requires r < |o| && j + 1 < |n| && o[r].Word? && n[j].Word? && n[j + 1] == Linked(n[j + 1].text, r + 1)
    requires k > j && (k > j + 1 ==> !ExtendsBackward(o, n, k))
    ensures !ExtendsBackward(o[r := Linked(o[r].text, j)], n[j := Linked(n[j].text, r)], k)
  {
  }

  /** No link extends forward, and none after position `i` backward. */
  ghost predicate BackDone(o: seq<Entry>, n: seq<Entry>, i: int) {
    && (forall k :: !ExtendsForward(o, n, k))
    && (forall k :: i < k ==> !ExtendsBackward(o, n, k))
  }

  lemma BackDoneStays(o: seq<Entry>, n: seq<Entry>, r: nat, j: nat)
    requires r < |o| && j + 1 < |n| && o[r].Word? && n[j].Word? && n[j + 1] == Linked(n[j + 1].text, r + 1)
    requires BackDone(o, n, j + 1)
    ensures BackDone(o[r := Linked(o[r].text, j)], n[j := Linked(n[j].text, r)], j)
  {
    var o', n' := o[r := Linked(o[r].text, j)], n[j := Linked(n[j].text, r)];
    forall k ensures !ExtendsForward(o', n', k) {
      ForwardStays(o, n, r, j, k);
    }
    forall k | j < k ensures !ExtendsBackward(o', n', k) {
      BackwardStays(o, n, r, j, k);
    }
  }

  /** Third pass, right to left. */
  method ExtendBack(o: array<Entry>, n: array<Entry>)
    requires o != n && Mutual(o[..], n[..]) && Anchored(n[..], Texts(o[..]), Texts(n[..]))
    requires forall i :: !ExtendsForward(o[..], n[..], i)
    modifies o, n
    ensures Mutual(o[..], n[..]) && Grown(old(o[..]), o[..]) && Grown(old(n[..]), n[..])
    ensures Anchored(n[..], Texts(o[..]), Texts(n[..]))
    ensures forall i :: !ExtendsForward(o[..], n[..], i) && !ExtendsBackward(o[..], n[..], i)
  {
    var i := n.Length - 1;
    while i > 0
      invariant -1 <= i < n.Length
      invariant Mutual(o[..], n[..]) && Grown(old(o[..]), o[..]) && Grown(old(n[..]), n[..])
      invariant Anchored(n[..], Texts(o[..]), Texts(n[..]))
      invariant BackDone(o[..], n[..], i)
    {
      StepBack(o, n, i);
      i := i - 1;
    }
  }

  method StepBack(o: array<Entry>, n: array<Entry>, i: int)
    requires o != n && Mutual(o[..], n[..]) && 0 < i < n.Length && BackDone(o[..], n[..], i)
    requires Anchored(n[..], Texts(o[..]), Texts(n[..]))
    modifies o, n
    ensures Mutual(o[..], n[..]) && Grown(old(o[..]), o[..]) && Grown(old(n[..]), n[..])
    ensures Anchored(n[..], Texts(o[..]), Texts(n[..]))
    ensures BackDone(o[..], n[..], i - 1)
  {
    if n[i].Linked? && n[i - 1].Word? && n[i].row > 0 && o[n[i].row - 1].Word?
       && n[i - 1].text == o[n[i].row - 1].text {
      BackDoneStays(o[..], n[..], n[i].row - 1, i - 1);
      JoinsRow(n[..], Texts(o[..]), Texts(n[..]), n[i].row - 1, i - 1, i);
      LinkRows(o, n, n[i].row - 1, i - 1);
    } else {
      assert !ExtendsBackward(o[..], n[..], i);
    }
  }
}
