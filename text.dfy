/** Product name clean-up: whitespace is normalised and the first character
    is capitalised, the rest keeping its case. */
module Text {
  import opened Ascii
  import opened Normalize
  import Seqs

  /** `capitalizeFirst`: "" for a name that is blank once normalised. */
  function CapitalizeFirst(s: string): (r: string)
    ensures |r| == |NormalizeSpaces(s)|
  {
    var t := NormalizeSpaces(s);
    if t == [] then [] else [UpperChar(t[0])] + t[1..]
  }

  /** The result is empty exactly when the input is blank. */
  lemma {:induction false} CapitalizeEmpty(s: string)
    ensures CapitalizeFirst(s) == [] <==> Visible(s) == []
  {
    var t := NormalizeSpaces(s);
    NormalizeKeepsVisible(s);
    NormalizeShape(s);
    if t != [] {
      assert IsVisible(t[0]);
      Seqs.FilterMembership(t, IsVisible, t[0]);
    } else {
      assert Visible(t) == [];
    }
  }

  /** Only the first character may change its case; the letters after it are
      kept exactly as normalisation left them. */
  lemma {:induction false} CapitalizeKeepsRest(s: string)
    ensures var t := NormalizeSpaces(s);
      var r := CapitalizeFirst(s);
      t != [] ==> r[0] == UpperChar(t[0]) && r[1..] == t[1..]
  {
  }

  /** Up to letter case the result is the normalised input. */
  lemma {:induction false} CapitalizeKeepsLower(s: string)
    ensures Lower(CapitalizeFirst(s)) == Lower(NormalizeSpaces(s))
  {
    var t := NormalizeSpaces(s);
    if t != [] {
      LowerUndoesCapital(t);
    }
  }

  /** The result has no whitespace at the ends, no whitespace pair and no
      whitespace besides the plain space. */
  lemma {:induction false} CapitalizeShape(s: string)
    ensures Normalized(CapitalizeFirst(s))
  {
    var t := NormalizeSpaces(s);
    NormalizeShape(s);
    if t != [] {
      CapitalKeepsNormalized(t);
    }
  }

  /** Capitalising twice is capitalising once. */
  lemma {:induction false} CapitalizeIdempotent(s: string)
    ensures CapitalizeFirst(CapitalizeFirst(s)) == CapitalizeFirst(s)
  {
    var r := CapitalizeFirst(s);
    CapitalizeShape(s);
    NormalizeOfNormalized(r);
    if r != [] {
      assert UpperChar(UpperChar(r[0])) == UpperChar(r[0]);
    }
  }

  /** A category's display name is the product-name treatment applied to the
      lowercased input. */
  lemma {:induction false} PrettyIsCapitalizedLower(s: string)
    ensures PrettyCategoryName(s) == CapitalizeFirst(Lower(s))
  {
    LowerNormalize(s);
  }
}
