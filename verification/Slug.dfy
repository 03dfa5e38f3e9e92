/** `slugify`: the URL part made from a demo day's title. */
module Slug {
  import opened Text
  import opened Words

  const DASH := '-'

  /** The laws of `toLowerCase` that count here: no A-Z comes out, and plain ASCII without A-Z stays as it is. */
  ghost predicate LowerCasing(lower: string -> string) {
    && (forall s, i :: 0 <= i < |lower(s)| ==> !('A' <= lower(s)[i] <= 'Z'))
    && (forall s :: (forall i :: 0 <= i < |s| ==> s[i] <= '~' && !('A' <= s[i] <= 'Z')) ==> lower(s) == s)
  }

  /** The class `\w`. */
  predicate WordChar(c: char) {
    'a' <= c <= 'z' || 'A' <= c <= 'Z' || '0' <= c <= '9' || c == '_'
  }

  predicate LowerWordChar(c: char) {
    'a' <= c <= 'z' || '0' <= c <= '9' || c == '_'
  }

  predicate Dropped(c: char) {
    !WordChar(c) && c != DASH
  }

  predicate IsDash(c: char) {
    c == DASH
  }

  /** The chain of replacements. A run of one dash is also covered by the pass that collapses dashes. */
  function Slugify(lower: string -> string, text: string): string {
    var dashed := ReplaceRuns(lower(text), IsSpace, [DASH]);
    var kept := ReplaceRuns(dashed, Dropped, "");
    DropTrailing(DropLeading(ReplaceRuns(kept, IsDash, [DASH]), DASH), DASH)
  }

  /** White space and dashes end words, word characters are written, everything else is passed over. */
  function SlugRole(c: char): Role {
    if IsSpace(c) || c == DASH then EndWord else if WordChar(c) then Write([c]) else Skip
  }

  lemma {:induction false} SpacesScan(s: string, started: bool)
    ensures Scan(DropRun(s, IsSpace), SlugRole, DASH, true, started) == Scan(s, SlugRole, DASH, true, started)
  {
    if s != "" && IsSpace(s[0]) {
      SpacesScan(s[1..], started);
    }
  }

  lemma {:induction false} DashedScans(s: string, pending: bool, started: bool)
    ensures Scan(ReplaceRuns(s, IsSpace, [DASH]), SlugRole, DASH, pending, started)
            == Scan(s, SlugRole, DASH, pending, started)
    decreases |s|
  {
    if s != "" {
      if IsSpace(s[0]) {
        var rest := DropRun(s[1..], IsSpace);
        var r := ReplaceRuns(rest, IsSpace, [DASH]);
        assert ([DASH] + r)[1..] == r;
        DashedScans(rest, true, started);
        SpacesScan(s[1..], started);
      } else {
        var r := ReplaceRuns(s[1..], IsSpace, [DASH]);
        assert ([s[0]] + r)[1..] == r;
        DashedScans(s[1..], pending, started);
        DashedScans(s[1..], true, started);
        DashedScans(s[1..], false, true);
      }
    }
  }

  predicate NoSpace(s: string) {
    forall i :: 0 <= i < |s| ==> !IsSpace(s[i])
  }

  lemma {:induction false} DashedHasNoSpace(s: string)
    ensures NoSpace(ReplaceRuns(s, IsSpace, [DASH]))
    decreases |s|
  {
    if s != "" {
      DashedHasNoSpace(if IsSpace(s[0]) then DropRun(s[1..], IsSpace) else s[1..]);
    }
  }

  lemma {:induction false} DroppedScan(s: string, pending: bool, started: bool)
    requires NoSpace(s)
    ensures NoSpace(DropRun(s, Dropped))
    ensures Scan(DropRun(s, Dropped), SlugRole, DASH, pending, started) == Scan(s, SlugRole, DASH, pending, started)
  {
    if s != "" && Dropped(s[0]) {
      assert forall i :: 0 <= i < |s[1..]| ==> s[1..][i] == s[i + 1];
      DroppedScan(s[1..], pending, started);
    }
  }

  /** Without white space, deleting the other characters first and then splitting at dashes is the pass. */
  lemma {:induction false} KeptScans(s: string, pending: bool, started: bool)
    requires NoSpace(s)
    ensures Scan(ReplaceRuns(s, Dropped, ""), Splitting(IsDash), DASH, pending, started)
            == Scan(s, SlugRole, DASH, pending, started)
    decreases |s|
  {
    if s != "" {
      assert forall i :: 0 <= i < |s[1..]| ==> s[1..][i] == s[i + 1];
      if Dropped(s[0]) {
        var rest := DropRun(s[1..], Dropped);
        DroppedScan(s[1..], pending, started);
        KeptScans(rest, pending, started);
        assert "" + ReplaceRuns(rest, Dropped, "") == ReplaceRuns(rest, Dropped, "");
      } else {
        var r := ReplaceRuns(s[1..], Dropped, "");
        assert Splitting(IsDash)(s[0]) == if s[0] == DASH then EndWord else Write([s[0]]);
        ScanCons(s[0], r, Splitting(IsDash), DASH, pending, started);
        KeptScans(s[1..], true, started);
        KeptScans(s[1..], false, true);
      }
    }
  }

  /** The five passes of `slugify` are one pass over the lower-cased text. */
  lemma SlugifyIsOnePass(lower: string -> string, text: string)
    ensures Slugify(lower, text) == Scan(lower(text), SlugRole, DASH, false, false)
  {
    var s := lower(text);
    var dashed := ReplaceRuns(s, IsSpace, [DASH]);
    DashedScans(s, false, false);
    DashedHasNoSpace(s);
    KeptScans(dashed, false, false);
    CollapseIsOnePass(ReplaceRuns(dashed, Dropped, ""), IsDash, DASH);
  }

  lemma {:induction false} LowerScan(s: string, pending: bool, started: bool)
    requires forall i :: 0 <= i < |s| ==> !('A' <= s[i] <= 'Z')
    ensures Scan(s, SlugRole, DASH, pending, started) == Scan(s, LowerSlugRole, DASH, pending, started)
  {
    if s != "" {
      assert forall i :: 0 <= i < |s[1..]| ==> s[1..][i] == s[i + 1];
      LowerScan(s[1..], pending, started);
      LowerScan(s[1..], true, started);
      LowerScan(s[1..], false, true);
    }
  }

  /** The same role on text without capitals. */
  function LowerSlugRole(c: char): Role {
    if 'A' <= c <= 'Z' then Skip else SlugRole(c)
  }

  lemma SlugHasForm(lower: string -> string, text: string)
    requires LowerCasing(lower)
    ensures WordForm(Slugify(lower, text), LowerWordChar, DASH)
  {
    SlugifyIsOnePass(lower, text);
    LowerScan(lower(text), false, false);
    ScanForm(lower(text), LowerSlugRole, DASH, false, "", LowerWordChar);
    assert "" + Slugify(lower, text) == Slugify(lower, text);
  }

  lemma FormIsOwnSlug(lower: string -> string, text: string)
    requires LowerCasing(lower) && WordForm(text, LowerWordChar, DASH)
    ensures Slugify(lower, text) == text
  {
    assert lower(text) == text;
    SlugifyIsOnePass(lower, text);
    FormIsFixed(text, SlugRole, DASH, LowerWordChar);
  }

  /** Words of `a-z0-9_` joined by single dashes, or nothing. */
  ghost predicate SlugShape(s: string) {
    && (forall i :: 0 <= i < |s| ==> 'a' <= s[i] <= 'z' || '0' <= s[i] <= '9' || s[i] == '_' || s[i] == '-')
    && (s != "" ==> s[0] != '-' && s[|s| - 1] != '-')
    && (forall i :: 0 <= i < |s| - 1 ==> !(s[i] == '-' && s[i + 1] == '-'))
  }

  lemma SlugShapeIs(s: string)
    ensures SlugShape(s) <==> WordForm(s, LowerWordChar, DASH)
  {
  }

  /** A slug has that shape, and exactly the texts of that shape are their own slugs. */
  lemma SlugsAreTheFixpoints(lower: string -> string, text: string)
    requires LowerCasing(lower)
    ensures SlugShape(Slugify(lower, text))
    ensures Slugify(lower, text) == text <==> SlugShape(text)
  {
    SlugHasForm(lower, text);
    SlugShapeIs(text);
    SlugShapeIs(Slugify(lower, text));
    if SlugShape(text) {
      FormIsOwnSlug(lower, text);
    }
  }

  lemma SlugifyIdempotent(lower: string -> string, text: string)
    requires LowerCasing(lower)
    ensures Slugify(lower, Slugify(lower, text)) == Slugify(lower, text)
  {
    SlugsAreTheFixpoints(lower, text);
    SlugsAreTheFixpoints(lower, Slugify(lower, text));
  }

  /**
   What a character of the lower-cased text counts for: white space for a dash; anything that is no letter,
   digit, underscore or dash for nothing; a dash for nothing before another one and at both ends.
   */
  lemma SlugRewrites(lower: string -> string, text: string, other: string, a: string, c: char, b: string)
    requires lower(text) == a + ([c] + b)
    ensures IsSpace(c) && lower(other) == a + (['-'] + b) ==> Slugify(lower, text) == Slugify(lower, other)
    ensures !('a' <= c <= 'z' || 'A' <= c <= 'Z' || '0' <= c <= '9' || c == '_' || c == '-' || IsSpace(c)) ==>
              lower(other) == a + b ==> Slugify(lower, text) == Slugify(lower, other)
    ensures c == '-' && (a == "" || b == "" || b[0] == '-') && lower(other) == a + b ==>
              Slugify(lower, text) == Slugify(lower, other)
  {
    SlugifyIsOnePass(lower, text);
    SlugifyIsOnePass(lower, other);
    if IsSpace(c) && lower(other) == a + (['-'] + b) {
      SameRoleSwaps(a, c, '-', b, SlugRole, DASH);
    } else if c == '-' && (a == "" || b == "" || b[0] == '-') {
      EndWordDrops(a, c, b, SlugRole, DASH);
    } else if SlugRole(c) == Skip {
      SkipDrops(a, c, b, SlugRole, DASH);
    }
  }
}
