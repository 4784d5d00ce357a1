/** Questions that differ only in letter case inside their labels (section 2.3.3 of RFC 1035). */
module CaseFolding {
  import opened Bytes
  import opened DnsQuestion

  /** Index i lies inside a label, for a walk that starts at index at. */
  predicate InLabel(s: seq<byte>, at: nat, i: nat)
    decreases |s| - at
  {
    at < |s| && 0 < s[at] <= MAX_LABEL_LEN && (at < i <= at + s[at] || InLabel(s, at + 1 + s[at], i))
  }

  /** Equal except for letter case inside labels. Nothing is asked of the rest of the bytes. */
  predicate SameButCase(s: seq<byte>, t: seq<byte>) {
    |s| == |t| && forall i :: 0 <= i < |s| ==> s[i] == t[i] || (InLabel(s, 0, i) && Lower(s[i]) == Lower(t[i]))
  }

  lemma {:induction false} InLabelAfter(s: seq<byte>, at: nat, i: nat)
    requires i <= at
    ensures !InLabel(s, at, i)
    decreases |s| - at
  {
    if at < |s| && 0 < s[at] <= MAX_LABEL_LEN {
      InLabelAfter(s, at + 1 + s[at], i);
    }
  }

  /** The walk over an encoded question passes the start of each label and the terminator. */
  lemma {:induction false} WalkPasses(s: seq<byte>, ls: seq<seq<byte>>, k: nat, i: nat)
    requires AreLabels(ls) && Encode(ls) <= s && k <= |ls| && |Wire(ls[..k])| <= i
    ensures InLabel(s, 0, i) <==> InLabel(s, |Wire(ls[..k])|, i)
  {
    if k > 0 {
      var off := |Wire(ls[..k - 1])|;
      WireStep(ls, k - 1);
      WalkPasses(s, ls, k - 1, i);
      NextByte(s, ls, k - 1);
    }
  }

  /** So length bytes, the terminator and everything after it are equal. */
  lemma BoundariesEqual(s: seq<byte>, t: seq<byte>, ls: seq<seq<byte>>, k: nat)
    requires IsQuestion(s, ls) && SameButCase(s, t) && k <= |ls|
    ensures |Wire(ls[..k])| < |s| && t[|Wire(ls[..k])|] == s[|Wire(ls[..k])|]
  {
    NextByte(s, ls, k);
    WalkPasses(s, ls, k, |Wire(ls[..k])|);
    InLabelAfter(s, |Wire(ls[..k])|, |Wire(ls[..k])|);
  }

  lemma TailEqual(s: seq<byte>, t: seq<byte>, ls: seq<seq<byte>>, i: nat)
    requires IsQuestion(s, ls) && SameButCase(s, t) && |Wire(ls)| <= i < |s|
    ensures t[i] == s[i]
  {
    assert ls[..|ls|] == ls;
    NextByte(s, ls, |ls|);
    WalkPasses(s, ls, |ls|, i);
  }

  /** The labels of t at the places of the labels of s. */
  function Relabelled(t: seq<byte>, ls: seq<seq<byte>>): (r: seq<seq<byte>>)
    requires AreLabels(ls) && |Wire(ls)| <= |t|
    ensures |r| == |ls|
  {
    if ls == [] then []
    else
      var front, last := ls[..|ls| - 1], ls[|ls| - 1];
      Relabelled(t, front) + [t[|Wire(ls)| - |last|..|Wire(ls)|]]
  }

  /** r spells, at the start of t, labels that are ls up to case. */
  ghost predicate Like(t: seq<byte>, r: seq<seq<byte>>, ls: seq<seq<byte>>) {
    && AreLabels(r) && AreLabels(ls)
    && |Wire(r)| == |Wire(ls)|
    && Wire(r) <= t
    && CanonicalName(r) == CanonicalName(ls)
  }

  lemma LikeExtends(
    t: seq<byte>, r: seq<seq<byte>>, ls: seq<seq<byte>>, off: nat, l': seq<byte>, l: seq<byte>)
    requires Like(t, r, ls) && |r| == |ls| && off == |Wire(ls)|
    requires |l'| == |l| && 1 <= |l| <= MAX_LABEL_LEN && LowerAll(l') == LowerAll(l)
    requires off + 1 + |l| <= |t| && t[off] == |l| && t[off + 1..off + 1 + |l|] == l'
    ensures Like(t, r + [l'], ls + [l])
  {
    hide CanonicalName;
    WireAppend(r, l');
    WireAppend(ls, l);
    CanonicalStep(r, l');
    CanonicalStep(ls, l);
    assert t[..off + 1 + |l|] == t[..off] + [t[off]] + l';
  }

  lemma {:induction false} RelabelledLike(s: seq<byte>, t: seq<byte>, ls: seq<seq<byte>>, k: nat)
    requires IsQuestion(s, ls) && SameButCase(s, t) && k <= |ls|
    ensures |Wire(ls[..k])| <= |t| && Like(t, Relabelled(t, ls[..k]), ls[..k])
  {
    hide IsQuestion, SameButCase, Like;
    WireBounds(s, t, ls, k);
    if k == 0 {
      assert ls[..0] == [];
      LikeNothing(t);
    } else {
      RelabelledLike(s, t, ls, k - 1);
      var front, l, off := ls[..k - 1], ls[k - 1], |Wire(ls[..k - 1])|;
      LabelMatches(s, t, ls, k - 1);
      WireStep(ls, k - 1);
      assert ls[..k][..k - 1] == front && ls[..k] == front + [l];
      LikeExtends(t, Relabelled(t, front), front, off, t[off + 1..off + 1 + |l|], l);
    }
  }

  lemma LikeNothing(t: seq<byte>)
    ensures Like(t, [], [])
  {
  }

  lemma WireBounds(s: seq<byte>, t: seq<byte>, ls: seq<seq<byte>>, k: nat)
    requires IsQuestion(s, ls) && SameButCase(s, t) && k <= |ls|
    ensures AreLabels(ls) && |Wire(ls[..k])| < |t|
  {
    NextByte(s, ls, k);
  }

  lemma LabelMatches(s: seq<byte>, t: seq<byte>, ls: seq<seq<byte>>, k: nat)
    requires IsQuestion(s, ls) && SameButCase(s, t) && k < |ls|
    ensures var off, n := |Wire(ls[..k])|, |ls[k]|;
            off + 1 + n <= |t| && t[off] == n && LowerAll(t[off + 1..off + 1 + n]) == LowerAll(ls[k])
  {
    NextByte(s, ls, k);
    NextLabel(s, ls, k);
    BoundariesEqual(s, t, ls, k);
    var off, n := |Wire(ls[..k])|, |ls[k]|;
    forall j | 0 <= j < n
      ensures Lower(t[off + 1 + j]) == Lower(ls[k][j])
    {
      assert s[off + 1..off + 1 + n][j] == s[off + 1 + j];
    }
  }

  /** A question up to case is a question with the same canonical name, depth and size. */
  lemma QuestionUpToCase(s: seq<byte>, t: seq<byte>, ls: seq<seq<byte>>) returns (r: seq<seq<byte>>)
    requires IsQuestion(s, ls) && SameButCase(s, t)
    ensures IsQuestion(t, r) && |r| == |ls| && |Encode(r)| == |Encode(ls)| && CanonicalName(r) == CanonicalName(ls)
  {
    assert ls[..|ls|] == ls;
    RelabelledLike(s, t, ls, |ls|);
    r := Relabelled(t, ls);
    TailEqual(s, t, ls, |Wire(ls)|);
    NextByte(s, ls, |ls|);
    assert t[..|Wire(r)| + 1] == Wire(r) + [0];
  }

  lemma {:induction false} InLabelSame(s: seq<byte>, t: seq<byte>, at: nat, i: nat)
    requires SameButCase(s, t)
    requires forall j :: at <= j ==> (InLabel(s, 0, j) <==> InLabel(s, at, j))
    ensures InLabel(s, at, i) <==> InLabel(t, at, i)
    decreases |s| - at
  {
    if at < |s| {
      InLabelAfter(s, at, at);
      assert s[at] == t[at];
      if 0 < s[at] <= MAX_LABEL_LEN {
        var next := at + 1 + s[at];
        forall j | next <= j
          ensures InLabel(s, 0, j) <==> InLabel(s, next, j)
        {
          assert InLabel(s, at, j) <==> InLabel(s, next, j);
        }
        InLabelSame(s, t, next, i);
      }
    }
  }

  lemma SameButCaseSymmetric(s: seq<byte>, t: seq<byte>)
    requires SameButCase(s, t)
    ensures SameButCase(t, s)
  {
    forall i | 0 <= i < |s|
      ensures t[i] == s[i] || (InLabel(t, 0, i) && Lower(t[i]) == Lower(s[i]))
    {
      InLabelSame(s, t, 0, i);
    }
  }
}
