/** Dotted names against label sequences: what a name says about the labels it came from. */
module Labels {
  import opened Bytes
  import opened DnsQuestion

  predicate DotFree(ls: seq<seq<byte>>) {
    forall i :: 0 <= i < |ls| ==> DOT !in ls[i]
  }

  function LowerLabels(ls: seq<seq<byte>>): (r: seq<seq<byte>>)
    ensures |r| == |ls| && forall i :: 0 <= i < |ls| ==> r[i] == LowerAll(ls[i])
  {
    seq(|ls|, i requires 0 <= i < |ls| => LowerAll(ls[i]))
  }

  /** The pieces between the dots. */
  function Split(s: seq<byte>): (r: seq<seq<byte>>)
    ensures |r| > 0
  {
    if s == [] then [[]]
    else
      var r, c := Split(s[..|s| - 1]), s[|s| - 1];
      if c == DOT then r + [[]] else r[..|r| - 1] + [r[|r| - 1] + [c]]
  }

  lemma DottedAppend(ls: seq<seq<byte>>, l: seq<byte>)
    requires ls != []
    ensures Dotted(ls + [l]) == Dotted(ls) + [DOT] + l
  {
    assert (ls + [l])[..|ls|] == ls;
  }

  lemma DottedFront(ls: seq<seq<byte>>)
    requires |ls| > 1
    ensures Dotted(ls) == Dotted(ls[..|ls| - 1]) + [DOT] + ls[|ls| - 1]
  {
  }

  lemma DottedOne(l: seq<byte>)
    ensures Dotted([l]) == l
  {
  }

  /** One more byte on the last piece is one more byte of the name. */
  lemma DottedGrowsLast(init: seq<seq<byte>>, last: seq<byte>, c: byte)
    ensures Dotted(init + [last + [c]]) == Dotted(init + [last]) + [c]
  {
    hide Dotted;
    if init == [] {
      assert init + [last] == [last] && init + [last + [c]] == [last + [c]];
      DottedOne(last);
      DottedOne(last + [c]);
    } else {
      DottedAppend(init, last);
      DottedAppend(init, last + [c]);
    }
  }

  lemma DotFreeMore(ls: seq<seq<byte>>, l: seq<byte>)
    ensures DotFree(ls + [l]) <==> DotFree(ls) && DOT !in l
  {
    assert (ls + [l])[|ls|] == l;
    assert forall i :: 0 <= i < |ls| ==> (ls + [l])[i] == ls[i];
  }

  lemma DotFreeLast(init: seq<seq<byte>>, last: seq<byte>, c: byte)
    requires DotFree(init + [last]) && c != DOT
    ensures DotFree(init + [last + [c]])
  {
    hide DotFree;
    DotFreeMore(init, last);
    DotFreeMore(init, last + [c]);
  }

  lemma SplitStep(front: seq<byte>, c: byte)
    ensures var r := Split(front);
            Split(front + [c]) == if c == DOT then r + [[]] else r[..|r| - 1] + [r[|r| - 1] + [c]]
  {
    assert (front + [c])[..|front|] == front;
  }

  /** Splitting yields pieces without dots, and joining them restores the name. */
  lemma {:induction false} SplitPieces(s: seq<byte>)
    ensures DotFree(Split(s)) && Dotted(Split(s)) == s
  {
    if s == [] {
      DottedOne([]);
    } else {
      hide Dotted, Split, DotFree;
      var front, c := s[..|s| - 1], s[|s| - 1];
      SplitPieces(front);
      var r := Split(front);
      var init, last := r[..|r| - 1], r[|r| - 1];
      assert r == init + [last] && s == front + [c];
      SplitStep(front, c);
      if c == DOT {
        DottedAppend(r, []);
        DotFreeMore(r, []);
      } else {
        DottedGrowsLast(init, last, c);
        DotFreeLast(init, last, c);
      }
    }
  }

  lemma {:induction false} SplitAfterDot(a: seq<byte>, b: seq<byte>)
    requires DOT !in b
    ensures Split(a + [DOT] + b) == Split(a) + [b]
  {
    var s := a + [DOT] + b;
    if b == [] {
      assert s[..|s| - 1] == a;
    } else {
      var front := b[..|b| - 1];
      assert b == front + [b[|b| - 1]];
      SplitAfterDot(a, front);
      assert s[..|s| - 1] == a + [DOT] + front;
    }
  }

  lemma {:induction false} SplitWithoutDot(s: seq<byte>)
    requires DOT !in s
    ensures Split(s) == [s]
  {
    if s != [] {
      SplitWithoutDot(s[..|s| - 1]);
      assert s == s[..|s| - 1] + [s[|s| - 1]];
    }
  }

  lemma {:induction false} SplitOfDotted(ls: seq<seq<byte>>)
    requires ls != [] && DotFree(ls)
    ensures Split(Dotted(ls)) == ls
  {
    hide Dotted, Split;
    if |ls| == 1 {
      assert ls == [ls[0]];
      DottedOne(ls[0]);
      SplitWithoutDot(ls[0]);
    } else {
      var front, l := ls[..|ls| - 1], ls[|ls| - 1];
      SplitOfDotted(front);
      DottedFront(ls);
      SplitAfterDot(Dotted(front), l);
      assert ls == front + [l];
    }
  }

  lemma {:induction false} CanonicalIsDottedLower(ls: seq<seq<byte>>)
    ensures CanonicalName(ls) == Dotted(LowerLabels(ls))
  {
    if |ls| > 1 {
      var front, l := ls[..|ls| - 1], ls[|ls| - 1];
      CanonicalIsDottedLower(front);
      assert LowerLabels(ls)[..|ls| - 1] == LowerLabels(front);
      LowerAllConcat(Dotted(front), [DOT] + l);
      LowerAllConcat([DOT], l);
      assert Dotted(ls) == Dotted(front) + ([DOT] + l);
      assert LowerAll([DOT]) == [DOT];
    } else if ls == [] {
      assert LowerAll([]) == [];
    }
  }

  lemma LowerKeepsDots(ls: seq<seq<byte>>)
    ensures DotFree(LowerLabels(ls)) <==> DotFree(ls)
  {
    forall i | 0 <= i < |ls|
      ensures DOT in LowerAll(ls[i]) <==> DOT in ls[i]
    {
      if DOT in ls[i] {
        var j :| 0 <= j < |ls[i]| && ls[i][j] == DOT;
        assert LowerAll(ls[i])[j] == DOT;
      }
    }
    forall i | 0 <= i < |ls|
      ensures DOT in LowerLabels(ls)[i] <==> DOT in ls[i]
    {
    }
  }

  /** The canonical name gives the labels back, up to case, exactly when no label contains a dot byte. */
  lemma NameSplitsIffDotFree(ls: seq<seq<byte>>)
    requires ls != []
    ensures Split(CanonicalName(ls)) == LowerLabels(ls) <==> DotFree(ls)
  {
    CanonicalIsDottedLower(ls);
    LowerKeepsDots(ls);
    SplitPieces(CanonicalName(ls));
    if DotFree(ls) {
      SplitOfDotted(LowerLabels(ls));
    }
  }

  /** So of all label sequences with the name of a dot-free one, just the dot-free one has those labels. */
  lemma NameDeterminesLabels(a: seq<seq<byte>>, b: seq<seq<byte>>)
    requires a != [] && b != [] && CanonicalName(a) == CanonicalName(b) && DotFree(a)
    ensures LowerLabels(b) == LowerLabels(a) <==> DotFree(b)
  {
    NameSplitsIffDotFree(a);
    NameSplitsIffDotFree(b);
  }

  /** Without that condition it does not: any two labels may have been one. */
  lemma MergedLabelsShareName(a: seq<byte>, b: seq<byte>)
    ensures CanonicalName([a, b]) == CanonicalName([a + [DOT] + b])
    ensures LowerLabels([a, b]) != LowerLabels([a + [DOT] + b])
  {
    assert [a, b][..1] == [a];
    assert Dotted([a, b]) == a + [DOT] + b;
  }

  /** Where label k starts in the dotted name. */
  function LabelStart(ls: seq<seq<byte>>, k: nat): nat
    requires k <= |ls|
  {
    if k == 0 then 0 else |Dotted(ls[..k])| + 1
  }

  /** The dotted name around the start of a label. */
  lemma {:induction false} DottedAt(ls: seq<seq<byte>>, k: nat)
    requires k < |ls|
    ensures Dotted(ls) == (if k == 0 then [] else Dotted(ls[..k]) + [DOT]) + Dotted(ls[k..])
    decreases |ls|
  {
    if k == 0 {
      assert ls[0..] == ls;
    } else if k == |ls| - 1 {
      assert ls[k..] == [ls[k]];
    } else {
      var front, l := ls[..|ls| - 1], ls[|ls| - 1];
      DottedAt(front, k);
      assert front[..k] == ls[..k];
      assert ls[k..] == front[k..] + [l];
      DottedAppend(front[k..], l);
    }
  }

  lemma NameAt(ls: seq<seq<byte>>, k: nat)
    requires k < |ls|
    ensures var name, at := CanonicalName(ls), LabelStart(ls, k);
            && at + |CanonicalName(ls[k..])| == |name|
            && name[at..] == CanonicalName(ls[k..])
            && (k > 0 ==> at > 0 && name[at - 1] == DOT)
  {
    DottedAt(ls, k);
    var at := LabelStart(ls, k);
    assert Dotted(ls)[at..] == Dotted(ls[k..]);
    assert k > 0 ==> Dotted(ls)[at - 1] == DOT;
  }

  lemma {:induction false} StartsGrow(ls: seq<seq<byte>>, j: nat, k: nat)
    requires j < k <= |ls|
    ensures LabelStart(ls, j) < LabelStart(ls, k)
  {
    if j < k - 1 {
      StartsGrow(ls, j, k - 1);
    }
    assert ls[..k][..k - 1] == ls[..k - 1];
    assert ls[..k][k - 1] == ls[k - 1];
    if k > 1 {
      assert Dotted(ls[..k]) == Dotted(ls[..k - 1]) + [DOT] + ls[k - 1];
    }
  }
}
