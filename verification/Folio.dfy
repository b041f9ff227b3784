/** Canonical folio numbers: strip all whitespace, uppercase, strip one trailing "/0+" suffix, in
    that order. */
module Folios {

  /** ASCII whitespace and letters; the statements that the folios come from are ASCII. */
  predicate IsSpace(c: char) {
    c == ' ' || '\t' <= c <= '\r'
  }

  function Upper(c: char): char {
    if 'a' <= c <= 'z' then c - 'a' + 'A' else c
  }

  function Squeeze(s: string): (r: string)
    ensures |r| <= |s|
  {
    if s == "" then ""
    else (if IsSpace(s[0]) then "" else [Upper(s[0])]) + Squeeze(s[1..])
  }

  function TrailingZeros(s: string): (n: nat)
    ensures n <= |s| && forall k :: |s| - n <= k < |s| ==> s[k] == '0'
    ensures n < |s| ==> s[|s| - n - 1] != '0'
  {
    if s != "" && s[|s| - 1] == '0' then 1 + TrailingZeros(s[..|s| - 1]) else 0
  }

  /** The pattern "/0+$" matches from position `k` to the end. */
  predicate SuffixAt(s: string, k: nat) {
    k + 1 < |s| && s[k] == '/' && forall j :: k < j < |s| ==> s[j] == '0'
  }

  ghost predicate HasSuffix(s: string) {
    exists k: nat :: SuffixAt(s, k)
  }

  function StripSuffix(s: string): (r: string) {
    var n := TrailingZeros(s);
    if 0 < n < |s| && s[|s| - n - 1] == '/' then s[..|s| - n - 1] else s
  }

  /** At most one position matches, and stripping cuts there. */
  lemma StripCutsAtSuffix(s: string, k: nat)
    ensures SuffixAt(s, k) ==> StripSuffix(s) == s[..k] && k == |s| - TrailingZeros(s) - 1
    ensures StripSuffix(s) != s ==> SuffixAt(s, |s| - TrailingZeros(s) - 1)
  {
  }

  lemma StripChangesIff(s: string)
    ensures HasSuffix(s) <==> StripSuffix(s) != s
    ensures !HasSuffix(s) <==> StripSuffix(s) == s
  {
    if HasSuffix(s) {
      var k: nat :| SuffixAt(s, k);
      StripCutsAtSuffix(s, k);
    } else {
      StripCutsAtSuffix(s, 0);
    }
  }

  function Canon(folio: string): string {
    StripSuffix(Squeeze(folio))
  }

  /** Nothing for `Squeeze` to do. */
  predicate Squeezed(s: string) {
    forall c :: c in s ==> !IsSpace(c) && !('a' <= c <= 'z')
  }

  lemma {:induction false} SqueezeSqueezes(s: string)
    ensures Squeezed(Squeeze(s))
  {
    if s != "" {
      SqueezeSqueezes(s[1..]);
      forall c | c in Squeeze(s)
        ensures !IsSpace(c) && !('a' <= c <= 'z')
      {
      }
    }
  }

  lemma {:induction false} SqueezeFixed(s: string)
    ensures Squeezed(s) <==> Squeeze(s) == s
  {
    if s != "" {
      SqueezeFixed(s[1..]);
      if Squeezed(s) {
        assert s[0] in s && forall c :: c in s[1..] ==> c in s;
        assert [s[0]] + s[1..] == s;
      } else if Squeeze(s) == s {
        SqueezeSqueezes(s);
      }
    }
  }

  lemma StripStaysSqueezed(s: string)
    requires Squeezed(s)
    ensures Squeezed(StripSuffix(s))
  {
  }

  /** A folio is canonical exactly when it has no whitespace, no lower-case letter and no zero
      suffix. */
  lemma CanonicalIff(folio: string)
    ensures Canon(folio) == folio <==> Squeezed(folio) && !HasSuffix(folio)
  {
    SqueezeFixed(folio);
    StripChangesIff(folio);
    SqueezeSqueezes(folio);
    StripStaysSqueezed(Squeeze(folio));
  }

  lemma SuffixInFull(s: string, k: nat)
    ensures SuffixAt(s, k) <==> k + 1 < |s| && s[k] == '/' && forall j :: k < j < |s| ==> s[j] == '0'
  {
  }

  lemma SqueezedInFull(s: string)
    ensures Squeezed(s) <==>
      forall c :: c in s ==> c != ' ' && !(9 <= c as int <= 13) && !(97 <= c as int <= 122)
  {
  }

  /** Two zero suffixes in a row at the end of the squeezed folio, as in "A/0/00". */
  ghost predicate DoubleSuffix(folio: string) {
    exists j: nat, k: nat :: TwoSuffixesAt(Squeeze(folio), j, k)
  }

  predicate TwoSuffixesAt(s: string, j: nat, k: nat) {
    SuffixAt(s, k) && SuffixAt(s[..k], j)
  }

  /** Canonicalization is idempotent on exactly the folios that do not end in two zero suffixes. */
  lemma IdempotentIff(folio: string)
    ensures Canon(Canon(folio)) == Canon(folio) <==> !DoubleSuffix(folio)
  {
    var s := Squeeze(folio);
    SqueezeSqueezes(folio);
    StripStaysSqueezed(s);
    SqueezeFixed(Canon(folio));
    StripChangesIff(s);
    StripChangesIff(Canon(folio));
    if DoubleSuffix(folio) {
      var j: nat, k: nat :| TwoSuffixesAt(s, j, k);
      StripCutsAtSuffix(s, k);
    } else if HasSuffix(Canon(folio)) {
      var j: nat :| SuffixAt(Canon(folio), j);
      StripCutsAtSuffix(s, 0);
      if HasSuffix(s) {
        var k: nat :| SuffixAt(s, k);
        StripCutsAtSuffix(s, k);
        assert TwoSuffixesAt(s, j, k);
      }
    }
  }

  lemma {:induction false} SqueezeJoin(a: string, b: string)
    ensures Squeeze(a + b) == Squeeze(a) + Squeeze(b)
  {
    if a == "" {
      assert a + b == b;
    } else {
      assert (a + b)[1..] == a[1..] + b;
      SqueezeJoin(a[1..], b);
    }
  }

  lemma {:induction false} SqueezeBlank(blank: string)
    requires forall c :: c in blank ==> IsSpace(c)
    ensures Squeeze(blank) == ""
  {
    if blank != "" {
      assert blank[0] in blank;
      SqueezeBlank(blank[1..]);
    }
  }

  /** Spellings of one folio that differ in whitespace, wherever it stands, meet. */
  lemma SpacingDoesNotMatter(before: string, blank: string, after: string)
    requires forall c :: c in blank ==> IsSpace(c)
    ensures Canon(before + blank + after) == Canon(before + after)
  {
    SqueezeJoin(before + blank, after);
    SqueezeJoin(before, blank);
    SqueezeJoin(before, after);
    SqueezeBlank(blank);
    assert Squeeze(before) + "" == Squeeze(before);
  }

  /** Squeezing, character by character: whitespace goes, a lower-case letter becomes the upper-case one
      32 places before it, everything else stays, in order. */
  lemma SqueezeIs(s: string, c: char)
    ensures Squeeze("") == ""
    ensures c == ' ' || 9 <= c as int <= 13 ==> Squeeze(s + [c]) == Squeeze(s)
    ensures 97 <= c as int <= 122 ==> Squeeze(s + [c]) == Squeeze(s) + [(c as int - 32) as char]
    ensures c != ' ' && !(9 <= c as int <= 13) && !(97 <= c as int <= 122) ==> Squeeze(s + [c]) == Squeeze(s) + [c]
  {
    SqueezeJoin(s, [c]);
    assert Squeeze([c]) == (if IsSpace(c) then "" else [Upper(c)]) + Squeeze([c][1..]);
    assert Squeeze(s) + "" == Squeeze(s);
  }

  /** Stripping, on positions: if some slash is followed by zeros only, at least one, to the end, the
      canonical folio is what stands before it in the squeezed folio, else the squeezed folio. */
  lemma CanonIs(folio: string, k: nat)
    ensures var s := Squeeze(folio);
      && (k + 1 < |s| && s[k] == '/' && (forall j :: k < j < |s| ==> s[j] == '0') ==> Canon(folio) == s[..k])
      && ((forall i :: 0 <= i < |s| - 1 && s[i] == '/' ==> exists j :: i < j < |s| && s[j] != '0') ==>
            Canon(folio) == s)
  {
    var s := Squeeze(folio);
    StripCutsAtSuffix(s, k);
    StripChangesIff(s);
    if Canon(folio) != s {
      var i := |s| - TrailingZeros(s) - 1;
      assert SuffixAt(s, i);
    }
  }

  lemma {:induction false} SqueezeLetters(s: string, t: string)
    requires |s| == |t| && forall i :: 0 <= i < |s| ==> !IsSpace(s[i]) && t[i] == Upper(s[i])
    ensures Squeeze(s) == t
  {
    if s == "" {
      assert t == "";
    } else {
      SqueezeLetters(s[1..], t[1..]);
      assert t == [t[0]] + t[1..];
    }
  }

  /** A folio that ends in something other than a zero has no suffix to lose. */
  lemma NoZeroNoSuffix(s: string)
    requires s != "" && s[|s| - 1] != '0'
    ensures StripSuffix(s) == s
  {
    assert TrailingZeros(s) == 0;
  }

  lemma PlainStays(s: string)
    requires Squeezed(s) && s != "" && s[|s| - 1] != '0'
    ensures Canon(s) == s
  {
    SqueezeFixed(s);
    NoZeroNoSuffix(s);
  }

  /** The documented case of an inner space, as in "33375865/ 73": the spelling becomes the one without. */
  lemma InnerSpaceGoes(before: string, after: string, s: string)
    requires s == before + after && Squeezed(s) && s != "" && s[|s| - 1] != '0'
    ensures Canon(before + " " + after) == s
  {
    SpacingDoesNotMatter(before, " ", after);
    PlainStays(s);
  }

  /** The documented case of a plan suffix, as in "12345/0": slash and zeros go, the body stays. */
  lemma PlanSuffixGoes(s: string, k: nat)
    requires Squeezed(s) && k + 1 < |s| && s[k] == '/' && forall j :: k < j < |s| ==> s[j] == '0'
    ensures Canon(s) == s[..k]
  {
    StripsTo(s, k);
  }

  /** Letters are folded to upper case. */
  lemma LettersAreFolded()
    ensures Canon("ab12") == "AB12"
  {
    SqueezeLetters("ab12", "AB12");
    NoZeroNoSuffix("AB12");
  }

  lemma StripsTo(s: string, k: nat)
    requires Squeezed(s) && SuffixAt(s, k)
    ensures Canon(s) == s[..k]
  {
    SqueezeFixed(s);
    StripCutsAtSuffix(s, k);
  }

  lemma NotIdempotentExample()
    ensures Canon("A/0/0") == "A/0" && Canon("A/0") == "A"
  {
    var twice, once := "A/0/0", "A/0";
    StripsTo(twice, 3);
    assert twice[..3] == once;
    StripsTo(once, 1);
    assert once[..1] == "A";
  }
}
