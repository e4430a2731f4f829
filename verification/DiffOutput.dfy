/** QUnit.diff's output: what becomes of every old and every new word. The markup is left as tags. */
module DiffOutput {
  import opened Diff

  /** `<del>`, `<ins>` and plain pieces, each with the white space that follows its word; `row` says which
      word it is. */
  datatype Piece =
    | Del(row: nat, text: string, space: string)
    | Ins(row: nat, text: string, space: string)
    | Keep(row: nat, text: string, space: string)

  /** How often old word `r` is deleted. */
  function Deletions(out: seq<Piece>, r: nat): nat {
    if out == [] then 0
    else Deletions(out[..|out| - 1], r) + if out[|out| - 1].Del? && out[|out| - 1].row == r then 1 else 0
  }

  /** The pieces that are not deletions. */
  function Surviving(out: seq<Piece>): seq<Piece> {
    if out == [] then []
    else Surviving(out[..|out| - 1]) + if out[|out| - 1].Del? then [] else [out[|out| - 1]]
  }

  /** New word `i` as it should appear. */
  function Shown(n: seq<Entry>, nSpace: seq<string>, i: nat): Piece
    requires i < |n| && |nSpace| >= |n|
  {
    if n[i].Word? then Ins(i, n[i].text, nSpace[i]) else Keep(i, n[i].text, nSpace[i])
  }

  /** The rows from `k` to `r` are all unlinked. */
  ghost predicate Unbroken(o: seq<Entry>, k: nat, r: nat) {
    k <= r < |o| && forall i :: k <= i <= r ==> o[i].Word?
  }

  /** An old word is deleted unless it is linked, or comes before every linked old word while the new
      text begins with a linked one. */
  ghost predicate IsDeleted(o: seq<Entry>, n: seq<Entry>, r: nat)
    requires r < |o|
  {
    o[r].Word? && (n == [] || n[0].Word? || exists q :: 0 <= q < r && o[q].Linked?)
  }

  /** New word `j` is linked to the last linked row before the unlinked row `r`. */
  ghost predicate Precedes(o: seq<Entry>, n: seq<Entry>, j: nat, r: nat) {
    j < |n| && n[j].Linked? && Unbroken(o, n[j].row + 1, r)
  }

  /** How often old word `r` has been deleted when the first `i` new words are out. */
  ghost function DeletedSoFar(o: seq<Entry>, n: seq<Entry>, i: nat, r: nat): nat
    requires n != []
  {
    (if n[0].Word? && Unbroken(o, 0, r) then 1 else 0)
    + if exists j :: 0 <= j < i && Precedes(o, n, j, r) then 1 else 0
  }

  lemma Appended(out: seq<Piece>, p: Piece)
    ensures Surviving(out + [p]) == Surviving(out) + if p.Del? then [] else [p]
    ensures forall r :: Deletions(out + [p], r) == Deletions(out, r) + if p.Del? && p.row == r then 1 else 0
  {
    assert (out + [p])[..|out|] == out;
  }

  /** A linked row has one partner, so at most one new word comes before `r` in this sense. */
  lemma {:induction false} OnlyOnePrecedes(o: seq<Entry>, n: seq<Entry>, i: nat, j: nat, r: nat)
    requires Mutual(o, n) && Precedes(o, n, i, r) && Precedes(o, n, j, r)
    ensures i == j
  {
    assert o[n[i].row] == Linked(n[i].text, i) && o[n[j].row] == Linked(n[j].text, j);
  }

  lemma {:induction false} SomeonePrecedes(o: seq<Entry>, n: seq<Entry>, r: nat, q: nat)
    requires Mutual(o, n) && q < r < |o| && o[q].Linked? && o[r].Word?
    ensures exists j :: 0 <= j < |n| && Precedes(o, n, j, r)
    decreases r - q
  {
    if i :| q < i < r && o[i].Linked? {
      SomeonePrecedes(o, n, r, i);
    } else {
      assert n[o[q].row] == Linked(o[q].text, q);
      assert Precedes(o, n, o[q].row, r);
    }
  }

  lemma {:induction false} InTheEnd(o: seq<Entry>, n: seq<Entry>, r: nat)
    requires Mutual(o, n) && n != [] && r < |o|
    ensures DeletedSoFar(o, n, |n|, r) == if IsDeleted(o, n, r) then 1 else 0
  {
    if q :| 0 <= q < r && o[q].Linked? {
      if o[r].Word? { SomeonePrecedes(o, n, r, q); }
    } else {
      forall j | 0 <= j < |n| ensures !Precedes(o, n, j, r) {
        if n[j].Linked? { assert o[n[j].row] == Linked(n[j].text, j); }
      }
    }
  }

  /** Piece `x`, if a deletion, shows an old word with its space, right behind the deletion of the old word
      before it, or behind the new word that the old word before it is linked to, or at the very front. */
  ghost predicate DeletesRightly(o: seq<Entry>, oSpace: seq<string>, n: seq<Entry>, out: seq<Piece>, x: nat) {
    x < |out| && out[x].Del? ==>
      && out[x].row < |o| && out[x].row < |oSpace|
      && out[x].text == o[out[x].row].text && out[x].space == oSpace[out[x].row]
      && Follows(n, out[..x], out[x].row)
  }

  /** Row `r` of the old text comes next after `before`. */
  ghost predicate Follows(n: seq<Entry>, before: seq<Piece>, r: nat) {
    if before == [] then r == 0
    else
      var last := before[|before| - 1];
      || (last.Del? && last.row + 1 == r)
      || (last.Keep? && last.row < |n| && n[last.row].Linked? && n[last.row].row + 1 == r)
  }

  ghost predicate AllDeleteRightly(o: seq<Entry>, oSpace: seq<string>, n: seq<Entry>, out: seq<Piece>) {
    forall x {:trigger DeletesRightly(o, oSpace, n, out, x)} :: 0 <= x < |out| ==> DeletesRightly(o, oSpace, n, out, x)
  }

  lemma OneMorePiece(o: seq<Entry>, oSpace: seq<string>, n: seq<Entry>, out: seq<Piece>, p: Piece)
    requires AllDeleteRightly(o, oSpace, n, out)
    requires p.Del? ==> p.row < |o| && p.row < |oSpace| && p.text == o[p.row].text && p.space == oSpace[p.row]
                        && Follows(n, out, p.row)
    ensures AllDeleteRightly(o, oSpace, n, out + [p])
  {
    forall x | 0 <= x < |out + [p]| ensures DeletesRightly(o, oSpace, n, out + [p], x) {
      if x < |out| {
        assert DeletesRightly(o, oSpace, n, out, x) && (out + [p])[..x] == out[..x];
      } else {
        assert (out + [p])[..x] == out;
      }
    }
  }

  /** Emit the unlinked rows from `k` on. */
  method EmitRun(o: seq<Entry>, oSpace: seq<string>, k: nat, before: seq<Piece>, ghost n: seq<Entry>)
    returns (out: seq<Piece>)
    requires |oSpace| >= |o|
    requires AllDeleteRightly(o, oSpace, n, before) && Follows(n, before, k)
    ensures AllDeleteRightly(o, oSpace, n, out)
    ensures Surviving(out) == Surviving(before)
    ensures forall r :: 0 <= r < |o| ==> Deletions(out, r) == Deletions(before, r) + if Unbroken(o, k, r) then 1 else 0
  {
    out := before;
    var m := k;
    while m < |o| && o[m].Word?
      invariant k <= m && (m <= |o| || m == k)
      invariant forall i :: k <= i < m ==> i < |o| && o[i].Word?
      invariant Surviving(out) == Surviving(before)
      invariant forall r: nat :: Deletions(out, r) == Deletions(before, r) + if k <= r < m then 1 else 0
      invariant AllDeleteRightly(o, oSpace, n, out) && Follows(n, out, m)
    {
      Appended(out, Del(m, o[m].text, oSpace[m]));
      OneMorePiece(o, oSpace, n, out, Del(m, o[m].text, oSpace[m]));
      out := out + [Del(m, o[m].text, oSpace[m])];
      m := m + 1;
    }
    forall r | 0 <= r < |o| ensures Unbroken(o, k, r) <==> k <= r < m {
    }
  }

  /** With no new text every old word is deleted. */
  method EmitAll(o: seq<Entry>, oSpace: seq<string>, ghost n: seq<Entry>) returns (out: seq<Piece>)
    requires |oSpace| >= |o|
    ensures Surviving(out) == [] && AllDeleteRightly(o, oSpace, n, out)
    ensures forall r :: 0 <= r < |o| ==> Deletions(out, r) == 1
  {
    out := [];
    for i := 0 to |o|
      invariant Surviving(out) == []
      invariant forall r: nat :: Deletions(out, r) == if 0 <= r < i then 1 else 0
      invariant AllDeleteRightly(o, oSpace, n, out) && Follows(n, out, i)
    {
      Appended(out, Del(i, o[i].text, oSpace[i]));
      OneMorePiece(o, oSpace, n, out, Del(i, o[i].text, oSpace[i]));
      out := out + [Del(i, o[i].text, oSpace[i])];
    }
  }

  /** The output: without the deletions it is the new text, word for word and in order; and every old
      word is deleted at most once, exactly when `IsDeleted` says. */
  method Render(o: seq<Entry>, n: seq<Entry>, oSpace: seq<string>, nSpace: seq<string>) returns (out: seq<Piece>)
    requires |oSpace| >= |o| && |nSpace| >= |n|
    requires Mutual(o, n)
    ensures |Surviving(out)| == |n| && forall i :: 0 <= i < |n| ==> Surviving(out)[i] == Shown(n, nSpace, i)
    ensures forall r :: 0 <= r < |o| ==> Deletions(out, r) == if IsDeleted(o, n, r) then 1 else 0
    ensures AllDeleteRightly(o, oSpace, n, out)
  {
    out := [];
    if |n| == 0 {
      out := EmitAll(o, oSpace, n);
      forall r | 0 <= r < |o| ensures o[r].Word? {
      }
    } else {
      if n[0].Word? {
        out := EmitRun(o, oSpace, 0, out, n);
      }
      for i := 0 to |n|
        invariant |Surviving(out)| == i && forall k :: 0 <= k < i ==> Surviving(out)[k] == Shown(n, nSpace, k)
        invariant forall r :: 0 <= r < |o| ==> Deletions(out, r) == DeletedSoFar(o, n, i, r)
        invariant AllDeleteRightly(o, oSpace, n, out)
      {
        out := EmitWord(o, n, oSpace, nSpace, i, out);
      }
      forall r | 0 <= r < |o| ensures Deletions(out, r) == if IsDeleted(o, n, r) then 1 else 0 {
        InTheEnd(o, n, r);
      }
    }
  }

  /** One new word, and the deleted words that follow the row it is linked to. */
  method EmitWord(o: seq<Entry>, n: seq<Entry>, oSpace: seq<string>, nSpace: seq<string>, i: nat, before: seq<Piece>)
    returns (out: seq<Piece>)
    requires |oSpace| >= |o| && |nSpace| >= |n| && Mutual(o, n) && i < |n|
    requires forall r :: 0 <= r < |o| ==> Deletions(before, r) == DeletedSoFar(o, n, i, r)
    requires AllDeleteRightly(o, oSpace, n, before)
    ensures Surviving(out) == Surviving(before) + [Shown(n, nSpace, i)]
    ensures forall r :: 0 <= r < |o| ==> Deletions(out, r) == DeletedSoFar(o, n, i + 1, r)
    ensures AllDeleteRightly(o, oSpace, n, out)
  {
    Appended(before, Shown(n, nSpace, i));
    OneMorePiece(o, oSpace, n, before, Shown(n, nSpace, i));
    if n[i].Word? {
      out := before + [Ins(i, n[i].text, nSpace[i])];
    } else {
      out := before + [Keep(i, n[i].text, nSpace[i])];
      out := EmitRun(o, oSpace, n[i].row + 1, out, n);
    }
    forall r | 0 <= r < |o| ensures Deletions(out, r) == DeletedSoFar(o, n, i + 1, r) {
      OneMoreWord(o, n, i, r);
    }
  }

  lemma OneMoreWord(o: seq<Entry>, n: seq<Entry>, i: nat, r: nat)
    requires Mutual(o, n) && i < |n| && r < |o|
    ensures DeletedSoFar(o, n, i + 1, r) == DeletedSoFar(o, n, i, r) + if Precedes(o, n, i, r) then 1 else 0
  {
    if Precedes(o, n, i, r) {
      if j :| 0 <= j < i && Precedes(o, n, j, r) {
        OnlyOnePrecedes(o, n, i, j, r);
      }
    } else {
      assert forall j :: 0 <= j < i + 1 && Precedes(o, n, j, r) ==> j < i;
    }
  }

  /** `o` and `n` link the words of two texts: mutually, every word written once in each, as far as links
      can be extended from there, and no others. */
  ghost predicate LinksTexts(o: seq<Entry>, n: seq<Entry>, oldWords: seq<string>, newWords: seq<string>) {
    && Texts(o) == oldWords && Texts(n) == newWords
    && Mutual(o, n) && UniquesLinked(o, n) && Anchored(n, oldWords, newWords)
    && forall i :: !ExtendsForward(o, n, i) && !ExtendsBackward(o, n, i)
  }

  /** The whole function: link the words of two texts (as `o` and `n`), then render. What is not deleted is
      the new text, linked words plain and the others inserted; an old word is deleted once or not at all,
      exactly as its link and those around it say; a word written once in each text is kept. */
  method DiffTexts(oldWords: seq<string>, newWords: seq<string>, oSpace: seq<string>, nSpace: seq<string>)
    returns (out: seq<Piece>, ghost o: seq<Entry>, ghost n: seq<Entry>)
    requires |oSpace| >= |oldWords| && |nSpace| >= |newWords|
    ensures LinksTexts(o, n, oldWords, newWords)
    ensures |Surviving(out)| == |newWords|
    ensures forall i :: 0 <= i < |newWords| ==> Surviving(out)[i] == Shown(n, nSpace, i)
    ensures forall i :: 0 <= i < |newWords| ==>
              !Surviving(out)[i].Del? && Surviving(out)[i].row == i
              && Surviving(out)[i].text == newWords[i] && Surviving(out)[i].space == nSpace[i]
    ensures forall r :: 0 <= r < |oldWords| ==> Deletions(out, r) == if IsDeleted(o, n, r) then 1 else 0
    ensures AllDeleteRightly(o, oSpace, n, out)
    ensures forall r, j :: (0 <= r < |oldWords| && 0 <= j < |newWords| && oldWords[r] == newWords[j]
                            && UniqueInBoth(oldWords, newWords, oldWords[r])) ==>
              Surviving(out)[j].Keep? && Deletions(out, r) == 0
  {
    var os := new Entry[|oldWords|](i requires 0 <= i < |oldWords| => Word(oldWords[i]));
    var ns := new Entry[|newWords|](i requires 0 <= i < |newWords| => Word(newWords[i]));
    assert Texts(os[..]) == oldWords && Texts(ns[..]) == newWords;
    LinkWords(os, ns);
    o, n := os[..], ns[..];
    assert forall i :: 0 <= i < |o| ==> o[i].text == Texts(o)[i];
    assert forall i :: 0 <= i < |n| ==> n[i].text == Texts(n)[i];
    out := Render(os[..], ns[..], oSpace, nSpace);
    forall r, j | 0 <= r < |o| && 0 <= j < |n| && o[r].text == n[j].text && UniqueInBoth(oldWords, newWords, o[r].text)
      ensures Surviving(out)[j].Keep? && Deletions(out, r) == 0
    {
      assert n[j] == Linked(n[j].text, r);
    }
  }
}
