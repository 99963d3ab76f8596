/** Category name normalisation: whitespace collapsing, the display form of
    a category name and the case-insensitive key used to keep "Dulces" and
    "dulces" from coexisting. */
module Normalize {
  import opened Ascii
  import Seqs

  /** No two whitespace characters in a row. */
  ghost predicate NoDoubleSpace(s: string)
  {
    forall i, j :: 0 <= i < j < |s| && j == i + 1 ==> !(IsSpace(s[i]) && IsSpace(s[j]))
  }

  /** The only whitespace character present is the plain space. */
  ghost predicate OnlyPlainSpaces(s: string)
  {
    forall i :: 0 <= i < |s| && IsSpace(s[i]) ==> s[i] == ' '
  }

  ghost predicate NoSpaceAtEnds(s: string)
  {
    s != [] ==> !IsSpace(s[0]) && !IsSpace(s[|s| - 1])
  }

  /** The shape every result of `NormalizeSpaces` has. */
  ghost predicate Normalized(s: string)
  {
    NoDoubleSpace(s) && OnlyPlainSpaces(s) && NoSpaceAtEnds(s)
  }

  /** The `replace(/\s+/g, " ")` step: each maximal whitespace run becomes one space. */
  function Collapse(s: string): (r: string)
    ensures |r| <= |s|
    decreases |s|
  {
    if s == [] then []
    else if IsSpace(s[0]) then [' '] + Collapse(TrimStart(s))
    else [s[0]] + Collapse(s[1..])
  }

  /** A collapsed string has no whitespace pair and no whitespace other than
      the plain space, and starts with whitespace exactly when its input does. */
  lemma {:induction false} CollapseShape(s: string)
    ensures NoDoubleSpace(Collapse(s)) && OnlyPlainSpaces(Collapse(s))
    ensures (Collapse(s) != [] && IsSpace(Collapse(s)[0])) <==> (s != [] && IsSpace(s[0]))
    decreases |s|
  {
    if s == [] {
    } else if IsSpace(s[0]) {
      var t := TrimStart(s);
      CollapseShape(t);
      var c := Collapse(t);
      assert Collapse(s) == [' '] + c;
      assert forall i :: 1 <= i < |c| + 1 ==> Collapse(s)[i] == c[i - 1];
    } else {
      CollapseShape(s[1..]);
      var c := Collapse(s[1..]);
      assert Collapse(s) == [s[0]] + c;
      assert forall i :: 1 <= i < |c| + 1 ==> Collapse(s)[i] == c[i - 1];
    }
  }

  /** A slice keeps the collapsed shape. */
  lemma {:induction false} SliceShape(c: string, lo: int, hi: int)
    requires 0 <= lo <= hi <= |c|
    requires NoDoubleSpace(c) && OnlyPlainSpaces(c)
    ensures NoDoubleSpace(c[lo..hi]) && OnlyPlainSpaces(c[lo..hi])
  {
    var r := c[lo..hi];
    assert forall i :: 0 <= i < |r| ==> r[i] == c[lo + i];
  }

  /** Trimming a collapsed string leaves it normalised. */
  lemma {:induction false} TrimShape(c: string)
    requires NoDoubleSpace(c) && OnlyPlainSpaces(c)
    ensures Normalized(Trim(c))
  {
    var a := LeadingSpaces(c);
    SliceShape(c, a, a + |Trim(c)|);
  }

  /** `normalizeSpaces`: collapse whitespace runs, then trim. */
  function NormalizeSpaces(s: string): (r: string)
    ensures |r| <= |s|
  {
    Trim(Collapse(s))
  }

  /** The result of `normalizeSpaces` has no whitespace at either end, no two
      whitespace characters in a row, and no whitespace but the plain space. */
  lemma {:induction false} NormalizeShape(s: string)
    ensures Normalized(NormalizeSpaces(s))
  {
    CollapseShape(s);
    TrimShape(Collapse(s));
  }

  // ----- non-whitespace content -----

  predicate IsVisible(c: char)
  {
    !IsSpace(c)
  }

  /** The characters of `s` that are not whitespace, in order. */
  function Visible(s: string): string
  {
    Seqs.Filter(s, IsVisible)
  }

  lemma {:induction false} VisibleOfSpaces(s: string)
    requires forall i :: 0 <= i < |s| ==> IsSpace(s[i])
    ensures Visible(s) == []
  {
    if s != [] {
      VisibleOfSpaces(s[1..]);
    }
  }

  lemma {:induction false} CollapseKeepsVisible(s: string)
    ensures Visible(Collapse(s)) == Visible(s)
    decreases |s|
  {
    if s == [] {
    } else if IsSpace(s[0]) {
      var t := TrimStart(s);
      CollapseKeepsVisible(t);
      assert s == s[..|s| - |t|] + t;
      Seqs.FilterAppend(s[..|s| - |t|], t, IsVisible);
      VisibleOfSpaces(s[..|s| - |t|]);
    } else {
      CollapseKeepsVisible(s[1..]);
    }
  }

  lemma {:induction false} VisibleOfPadded(pre: string, mid: string, post: string)
    requires forall i :: 0 <= i < |pre| ==> IsSpace(pre[i])
    requires forall i :: 0 <= i < |post| ==> IsSpace(post[i])
    ensures Visible(pre + mid + post) == Visible(mid)
  {
    Seqs.FilterAppend(pre + mid, post, IsVisible);
    Seqs.FilterAppend(pre, mid, IsVisible);
    VisibleOfSpaces(pre);
    VisibleOfSpaces(post);
  }

  lemma {:induction false} TrimStartKeepsVisible(s: string)
    ensures Visible(TrimStart(s)) == Visible(s)
  {
    var t := TrimStart(s);
    var pre := s[..|s| - |t|];
    assert s == pre + t + [];
    VisibleOfPadded(pre, t, []);
  }

  lemma {:induction false} TrimEndKeepsVisible(s: string)
    ensures Visible(TrimEnd(s)) == Visible(s)
  {
    var t := TrimEnd(s);
    var post := s[|t|..];
    assert s == [] + t + post;
    VisibleOfPadded([], t, post);
  }

  lemma {:induction false} TrimKeepsVisible(s: string)
    ensures Visible(Trim(s)) == Visible(s)
  {
    TrimStartKeepsVisible(s);
    TrimEndKeepsVisible(TrimStart(s));
  }

  /** Normalising drops whitespace only: every other character survives, in order. */
  lemma {:induction false} NormalizeKeepsVisible(s: string)
    ensures Visible(NormalizeSpaces(s)) == Visible(s)
  {
    CollapseKeepsVisible(s);
    TrimKeepsVisible(Collapse(s));
  }

  // ----- idempotence -----

  lemma {:induction false} CollapseOfCollapsed(t: string)
    requires NoDoubleSpace(t) && OnlyPlainSpaces(t)
    ensures Collapse(t) == t
    decreases |t|
  {
    if t == [] {
    } else if IsSpace(t[0]) {
      assert TrimStart(t) == t[1..] by {
        if |t| > 1 {
          assert !IsSpace(t[1]);
          assert TrimStart(t[1..]) == t[1..];
        }
      }
      CollapseOfCollapsed(t[1..]);
    } else {
      CollapseOfCollapsed(t[1..]);
    }
  }

  /** A normalised string is left as it is. */
  lemma {:induction false} NormalizeOfNormalized(t: string)
    requires Normalized(t)
    ensures NormalizeSpaces(t) == t
  {
    CollapseOfCollapsed(t);
    assert TrimStart(t) == t;
    assert TrimEnd(t) == t;
  }

  /** `normalizeSpaces` is idempotent. */
  lemma {:induction false} NormalizeIdempotent(s: string)
    ensures NormalizeSpaces(NormalizeSpaces(s)) == NormalizeSpaces(s)
  {
    NormalizeShape(s);
    NormalizeOfNormalized(NormalizeSpaces(s));
  }

  // ----- case maps and normalisation -----

  /** Lowercasing does not disturb the normalised shape. */
  lemma {:induction false} LowerKeepsNormalized(t: string)
    requires Normalized(t)
    ensures Normalized(Lower(t))
  {
  }

  /** Capitalising the first character does not disturb the normalised shape. */
  lemma {:induction false} CapitalKeepsNormalized(t: string)
    requires Normalized(t) && t != []
    ensures Normalized([UpperChar(t[0])] + t[1..])
  {
    var r := [UpperChar(t[0])] + t[1..];
    assert forall i :: 1 <= i < |r| ==> r[i] == t[i];
  }

  lemma {:induction false} LowerTrimStart(s: string)
    ensures TrimStart(Lower(s)) == Lower(TrimStart(s))
    decreases |s|
  {
    var l := Lower(s);
    if s != [] && IsSpace(s[0]) {
      assert IsSpace(l[0]);
      assert l[1..] == Lower(s[1..]);
      calc {
        TrimStart(l);
        TrimStart(l[1..]);
        { LowerTrimStart(s[1..]); }
        Lower(TrimStart(s[1..]));
      }
    } else {
      assert l == [] || !IsSpace(l[0]);
    }
  }

  lemma {:induction false} LowerTrimEnd(s: string)
    ensures TrimEnd(Lower(s)) == Lower(TrimEnd(s))
    decreases |s|
  {
    var l := Lower(s);
    var n := |s|;
    if s != [] && IsSpace(s[n - 1]) {
      assert IsSpace(l[n - 1]);
      assert l[..n - 1] == Lower(s[..n - 1]);
      calc {
        TrimEnd(l);
        TrimEnd(l[..n - 1]);
        { LowerTrimEnd(s[..n - 1]); }
        Lower(TrimEnd(s[..n - 1]));
      }
    } else {
      assert l == [] || !IsSpace(l[n - 1]);
    }
  }

  lemma {:induction false} LowerCons(c: char, t: string)
    ensures Lower([c] + t) == [LowerChar(c)] + Lower(t)
  {
    var x := [c] + t;
    assert forall i :: 1 <= i < |x| ==> x[i] == t[i - 1];
  }

  lemma {:induction false} LowerCollapseSpace(s: string)
    requires s != [] && IsSpace(s[0])
    requires Collapse(Lower(TrimStart(s))) == Lower(Collapse(TrimStart(s)))
    ensures Collapse(Lower(s)) == Lower(Collapse(s))
  {
    var l := Lower(s);
    assert IsSpace(l[0]);
    LowerTrimStart(s);
    assert Collapse(l) == [' '] + Lower(Collapse(TrimStart(s)));
    LowerCons(' ', Collapse(TrimStart(s)));
  }

  lemma {:induction false} LowerCollapseVisible(s: string)
    requires s != [] && !IsSpace(s[0])
    requires Collapse(Lower(s[1..])) == Lower(Collapse(s[1..]))
    ensures Collapse(Lower(s)) == Lower(Collapse(s))
  {
    var l := Lower(s);
    assert !IsSpace(l[0]);
    assert l[1..] == Lower(s[1..]);
    assert Collapse(l) == [l[0]] + Lower(Collapse(s[1..]));
    LowerCons(s[0], Collapse(s[1..]));
  }

  lemma {:induction false} LowerCollapse(s: string)
    ensures Collapse(Lower(s)) == Lower(Collapse(s))
    decreases |s|
  {
    if s == [] {
    } else if IsSpace(s[0]) {
      LowerCollapse(TrimStart(s));
      LowerCollapseSpace(s);
    } else {
      LowerCollapse(s[1..]);
      LowerCollapseVisible(s);
    }
  }

  /** Lowercasing commutes with normalisation. */
  lemma {:induction false} LowerNormalize(s: string)
    ensures NormalizeSpaces(Lower(s)) == Lower(NormalizeSpaces(s))
  {
    LowerCollapse(s);
    LowerTrimStart(Collapse(s));
    LowerTrimEnd(TrimStart(Collapse(s)));
  }

  lemma {:induction false} LowerIdempotent(s: string)
    ensures Lower(Lower(s)) == Lower(s)
  {
  }

  // ----- display name and key -----

  /** `prettyCategoryName`: normalise, lowercase, then capitalise the first
      character; "" signals an invalid name. */
  function PrettyCategoryName(input: string): (r: string)
    ensures |r| == |NormalizeSpaces(input)|
  {
    var s := NormalizeSpaces(input);
    if s == [] then []
    else
      var lower := Lower(s);
      [UpperChar(lower[0])] + lower[1..]
  }

  /** `categoryKey`: normalise and lowercase; used for lookups, never shown. */
  function CategoryKey(input: string): (r: string)
    ensures |r| == |NormalizeSpaces(input)|
    ensures forall i :: 0 <= i < |r| ==> !IsUpper(r[i])
  {
    Lower(NormalizeSpaces(input))
  }

  lemma {:induction false} PrettyShape(s: string)
    ensures Normalized(PrettyCategoryName(s))
  {
    var n := NormalizeSpaces(s);
    NormalizeShape(s);
    if n != [] {
      LowerKeepsNormalized(n);
      CapitalKeepsNormalized(Lower(n));
    }
  }

  lemma {:induction false} KeyShape(s: string)
    ensures Normalized(CategoryKey(s))
  {
    NormalizeShape(s);
    LowerKeepsNormalized(NormalizeSpaces(s));
  }

  /** A name is rejected exactly when its key is empty. */
  lemma {:induction false} PrettyEmptyIffKeyEmpty(s: string)
    ensures PrettyCategoryName(s) == [] <==> CategoryKey(s) == []
  {
  }

  /** The display name is the key with its first character capitalised. */
  lemma {:induction false} PrettyFromKey(s: string)
    requires CategoryKey(s) != []
    ensures PrettyCategoryName(s) == [UpperChar(CategoryKey(s)[0])] + CategoryKey(s)[1..]
  {
  }

  /** Lowercasing forgets a capitalised first character. */
  lemma {:induction false} LowerUndoesCapital(k: string)
    requires k != []
    ensures Lower([UpperChar(k[0])] + k[1..]) == Lower(k)
  {
    var c := [UpperChar(k[0])] + k[1..];
    assert forall i :: 1 <= i < |c| ==> c[i] == k[i];
  }

  /** The key is the display name lowercased. */
  lemma {:induction false} LowerOfPretty(s: string)
    ensures Lower(PrettyCategoryName(s)) == CategoryKey(s)
  {
    var k := CategoryKey(s);
    if k != [] {
      PrettyFromKey(s);
      LowerUndoesCapital(k);
      LowerIdempotent(NormalizeSpaces(s));
    }
  }

  /** The key depends on the input only up to letter case. */
  lemma {:induction false} KeyIgnoresCase(a: string, b: string)
    requires Lower(a) == Lower(b)
    ensures CategoryKey(a) == CategoryKey(b)
  {
    LowerNormalize(a);
    LowerNormalize(b);
    LowerIdempotent(NormalizeSpaces(a));
    LowerIdempotent(NormalizeSpaces(b));
    LowerIdempotent(a);
  }

  /** A display name maps back to the key it came from. */
  lemma {:induction false} KeyOfPretty(s: string)
    ensures CategoryKey(PrettyCategoryName(s)) == CategoryKey(s)
  {
    var p := PrettyCategoryName(s);
    PrettyShape(s);
    NormalizeOfNormalized(p);
    LowerOfPretty(s);
  }

  lemma {:induction false} KeyIdempotent(s: string)
    ensures CategoryKey(CategoryKey(s)) == CategoryKey(s)
  {
    KeyShape(s);
    NormalizeOfNormalized(CategoryKey(s));
    LowerIdempotent(NormalizeSpaces(s));
  }

  lemma {:induction false} PrettyIdempotent(s: string)
    ensures PrettyCategoryName(PrettyCategoryName(s)) == PrettyCategoryName(s)
  {
    var p := PrettyCategoryName(s);
    PrettyShape(s);
    NormalizeOfNormalized(p);
    LowerOfPretty(s);
    if p != [] {
      PrettyFromKey(s);
    }
  }

  // ----- surrounding whitespace -----

  /** A whitespace-free piece passes through `Collapse` unchanged. */
  lemma {:induction false} CollapseWord(w: string, t: string)
    requires forall i :: 0 <= i < |w| ==> !IsSpace(w[i])
    ensures Collapse(w + t) == w + Collapse(t)
  {
    if w == [] {
      assert w + t == t;
    } else {
      assert (w + t)[1..] == w[1..] + t;
      CollapseWord(w[1..], t);
    }
  }

  lemma {:induction false} TrimStartRun(sp: string, t: string)
    requires forall i :: 0 <= i < |sp| ==> IsSpace(sp[i])
    requires t != [] ==> !IsSpace(t[0])
    ensures TrimStart(sp + t) == t
  {
    if sp == [] {
      assert sp + t == t;
    } else {
      assert (sp + t)[1..] == sp[1..] + t;
      TrimStartRun(sp[1..], t);
    }
  }

  lemma {:induction false} TrimEndRun(t: string, sp: string)
    requires forall i :: 0 <= i < |sp| ==> IsSpace(sp[i])
    requires t != [] ==> !IsSpace(t[|t| - 1])
    ensures TrimEnd(t + sp) == t
  {
    if sp == [] {
      assert t + sp == t;
    } else {
      assert (t + sp)[..|t + sp| - 1] == t + sp[..|sp| - 1];
      TrimEndRun(t, sp[..|sp| - 1]);
    }
  }

  /** A non-empty whitespace run in front of a non-space becomes one space. */
  lemma {:induction false} CollapseRun(sp: string, t: string)
    requires sp != [] && forall i :: 0 <= i < |sp| ==> IsSpace(sp[i])
    requires t != [] ==> !IsSpace(t[0])
    ensures Collapse(sp + t) == [' '] + Collapse(t)
  {
    TrimStartRun(sp, t);
  }

  /** One space for a non-empty whitespace run, nothing for an empty one. */
  function OneSpaceIf(run: string): string
  {
    if run == [] then [] else [' ']
  }

  lemma {:induction false} CollapseAround(pre: string, w: string, post: string)
    requires forall i :: 0 <= i < |pre| ==> IsSpace(pre[i])
    requires forall i :: 0 <= i < |post| ==> IsSpace(post[i])
    requires w != [] && forall i :: 0 <= i < |w| ==> !IsSpace(w[i])
    ensures Collapse(pre + w + post) == OneSpaceIf(pre) + (w + OneSpaceIf(post))
  {
    assert Collapse(post) == OneSpaceIf(post) by {
      if post != [] {
        assert post + [] == post;
        CollapseRun(post, []);
      }
    }
    CollapseWord(w, post);
    assert pre + w + post == pre + (w + post);
    if pre != [] {
      CollapseRun(pre, w + post);
    } else {
      assert pre + (w + post) == w + post;
    }
  }

  /** The whitespace around a single word is dropped entirely. */
  lemma {:induction false} WordPadded(pre: string, w: string, post: string)
    requires forall i :: 0 <= i < |pre| ==> IsSpace(pre[i])
    requires forall i :: 0 <= i < |post| ==> IsSpace(post[i])
    requires w != [] && forall i :: 0 <= i < |w| ==> !IsSpace(w[i])
    ensures NormalizeSpaces(pre + w + post) == w
  {
    CollapseAround(pre, w, post);
    TrimStartRun(OneSpaceIf(pre), w + OneSpaceIf(post));
    TrimEndRun(w, OneSpaceIf(post));
  }

  /** A string without whitespace is left as it is. */
  lemma {:induction false} WordIsFixed(s: string)
    requires forall i :: 0 <= i < |s| ==> !IsSpace(s[i])
    ensures NormalizeSpaces(s) == s
  {
    assert Normalized(s);
    NormalizeOfNormalized(s);
  }

  /** The key of a string without whitespace is its lowercase form. */
  lemma {:induction false} KeyOfWord(s: string)
    requires forall i :: 0 <= i < |s| ==> !IsSpace(s[i])
    ensures CategoryKey(s) == Lower(s)
  {
    WordIsFixed(s);
  }
}
