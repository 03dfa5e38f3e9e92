/**
 A text cut at the matches of a sticky expression, left to right. The expression is given by the
 length of its match at every place (0 where there is none), so nothing here depends on what it matches.
 */
module Cutting {
  import opened Sequences

  type Matches = nat -> nat

  /** Matches stay inside the text. */
  ghost predicate Within(m: Matches, size: nat) {
    forall i: nat :: m(i) > 0 ==> i + m(i) <= size
  }

  /** No match starts in this range. */
  ghost predicate NoMatchIn(m: Matches, from: nat, to: nat) {
    forall k: nat :: from <= k < to ==> m(k) == 0
  }

  /** `exec` from a position: the leftmost place with a match. */
  function FirstMatch(m: Matches, from: nat, size: nat): (found: Option<nat>)
    ensures found.Some? ==> from <= found.value < size && m(found.value) > 0 && NoMatchIn(m, from, found.value)
    ensures found.None? ==> NoMatchIn(m, from, size)
    decreases size - from
  {
    if from >= size then None
    else if m(from) > 0 then Some(from)
    else FirstMatch(m, from + 1, size)
  }

  datatype Insert = Insert(text: string, link: Option<string>)

  function Plain(text: string): Insert {
    Insert(text, None)
  }

  function Link(text: string): Insert {
    Insert(text, Some(text))
  }

  /** Where the next match starts, or the end. */
  function NextMatch(m: Matches, from: nat, size: nat): nat {
    match FirstMatch(m, from, size)
    case None => size
    case Some(i) => i
  }

  /** The inserts for the text from `from` on: the match that starts there, or the text up to the next one. */
  function Segments(text: string, m: Matches, from: nat): seq<Insert>
    requires from <= |text| && Within(m, |text|)
    decreases |text| - from
  {
    if from == |text| then []
    else if m(from) > 0 then [Link(text[from..from + m(from)])] + Segments(text, m, from + m(from))
    else
      var to := NextMatch(m, from, |text|);
      [Plain(text[from..to])] + Segments(text, m, to)
  }

  /**
   A correct cut of the text from `from` on: non-empty inserts that spell it out, links that are the
   match at their place, plain text in which no match starts, and no two plain inserts in a row.
   */
  ghost predicate IsCut(text: string, m: Matches, from: nat, inserts: seq<Insert>, afterPlain: bool)
    decreases |inserts|
  {
    if inserts == [] then from == |text|
    else
      var first := inserts[0];
      var to := from + |first.text|;
      && from < to <= |text| && text[from..to] == first.text
      && (match first.link
          case None => !afterPlain && NoMatchIn(m, from, to)
          case Some(url) => url == first.text && m(from) == |first.text|)
      && IsCut(text, m, to, inserts[1..], first.link.None?)
  }

  lemma FirstMatchAt(m: Matches, from: nat, to: nat, size: nat)
    requires from <= to < size && NoMatchIn(m, from, to) && m(to) > 0
    ensures FirstMatch(m, from, size) == Some(to)
  {
  }

  lemma CutOfLink(text: string, m: Matches, from: nat, rest: seq<Insert>, afterPlain: bool)
    requires 0 < m(from) && from + m(from) <= |text| && IsCut(text, m, from + m(from), rest, false)
    ensures IsCut(text, m, from, [Link(text[from..from + m(from)])] + rest, afterPlain)
  {
    var first := Link(text[from..from + m(from)]);
    assert ([first] + rest)[0] == first && ([first] + rest)[1..] == rest;
  }

  lemma CutOfPlain(text: string, m: Matches, from: nat, to: nat, rest: seq<Insert>)
    requires from < to <= |text| && NoMatchIn(m, from, to) && IsCut(text, m, to, rest, true)
    ensures IsCut(text, m, from, [Plain(text[from..to])] + rest, false)
  {
    var first := Plain(text[from..to]);
    assert ([first] + rest)[0] == first && ([first] + rest)[1..] == rest;
  }

  lemma PlainFirst(text: string, m: Matches, from: nat, to: nat)
    requires from < to <= |text| && Within(m, |text|) && NoMatchIn(m, from, to)
    requires to < |text| ==> m(to) > 0
    ensures Segments(text, m, from) == [Plain(text[from..to])] + Segments(text, m, to)
  {
    if to < |text| {
      FirstMatchAt(m, from, to, |text|);
    } else {
      assert FirstMatch(m, from, |text|) == None;
    }
  }

  /** One round of the matching loop: the plain text passed over, the link, and what follows it. */
  lemma Round(text: string, m: Matches, from: nat, done: seq<Insert>)
    requires from <= |text| && Within(m, |text|) && FirstMatch(m, from, |text|).Some?
    ensures var i := FirstMatch(m, from, |text|).value;
            var passed := if i > from then done + [Plain(text[from..i])] else done;
            done + Segments(text, m, from)
            == passed + [Link(text[i..i + m(i)])] + Segments(text, m, i + m(i))
  {
    var i := FirstMatch(m, from, |text|).value;
    var link, rest := [Link(text[i..i + m(i)])], Segments(text, m, i + m(i));
    if i > from {
      PlainFirst(text, m, from, i);
      Regroup(done, [Plain(text[from..i])], link + rest);
      Regroup(done + [Plain(text[from..i])], link, rest);
    } else {
      Regroup(done, link, rest);
    }
  }

  /** After the last match. */
  lemma LastRound(text: string, m: Matches, from: nat)
    requires from <= |text| && Within(m, |text|) && FirstMatch(m, from, |text|).None?
    ensures Segments(text, m, from) == if from < |text| then [Plain(text[from..])] else []
  {
    if from < |text| {
      assert text[from..|text|] == text[from..];
      PlainFirst(text, m, from, |text|);
    }
  }

  lemma {:induction false} SegmentsAreACut(text: string, m: Matches, from: nat, afterPlain: bool)
    requires from <= |text| && Within(m, |text|)
    requires afterPlain ==> from == |text| || m(from) > 0
    ensures IsCut(text, m, from, Segments(text, m, from), afterPlain)
    decreases |text| - from
  {
    if from < |text| {
      if m(from) > 0 {
        var to := from + m(from);
        SegmentsAreACut(text, m, to, false);
        CutOfLink(text, m, from, Segments(text, m, to), afterPlain);
      } else {
        var found := FirstMatch(m, from, |text|);
        var to := if found.Some? then found.value else |text|;
        PlainFirst(text, m, from, to);
        SegmentsAreACut(text, m, to, true);
        CutOfPlain(text, m, from, to, Segments(text, m, to));
      }
    }
  }

  lemma {:induction false} CutsAreSegments(text: string, m: Matches, from: nat, inserts: seq<Insert>, afterPlain: bool)
    requires from <= |text| && Within(m, |text|) && IsCut(text, m, from, inserts, afterPlain)
    ensures inserts == Segments(text, m, from)
    ensures afterPlain && from < |text| ==> m(from) > 0
    decreases |inserts|
  {
    if inserts != [] {
      var first, rest := inserts[0], inserts[1..];
      var to := from + |first.text|;
      CutsAreSegments(text, m, to, rest, first.link.None?);
      assert inserts == [first] + rest;
      if first.link.None? {
        PlainFirst(text, m, from, to);
      }
    }
  }

  /** Leftmost cutting gives a correct cut, and there is no other correct one. */
  lemma SegmentsAreTheCut(text: string, m: Matches, inserts: seq<Insert>)
    requires Within(m, |text|)
    ensures IsCut(text, m, 0, inserts, false) <==> inserts == Segments(text, m, 0)
  {
    SegmentsAreACut(text, m, 0, false);
    if IsCut(text, m, 0, inserts, false) {
      CutsAreSegments(text, m, 0, inserts, false);
    }
  }

  /** No match starts where another one ends. */
  ghost predicate NoMatchAfterMatch(m: Matches) {
    forall i: nat :: m(i) > 0 ==> m(i + m(i)) == 0
  }

  /** Plain inserts and links take turns. */
  ghost predicate Alternating(inserts: seq<Insert>) {
    forall k :: 0 <= k < |inserts| - 1 ==> (inserts[k].link.None? <==> inserts[k + 1].link.Some?)
  }

  lemma {:induction false} CutsAlternate(text: string, m: Matches, from: nat, inserts: seq<Insert>, afterPlain: bool)
    requires NoMatchAfterMatch(m) && IsCut(text, m, from, inserts, afterPlain)
    ensures Alternating(inserts)
    decreases |inserts|
  {
    if |inserts| > 1 {
      var first, second := inserts[0], inserts[1];
      var to := from + |first.text|;
      CutsAlternate(text, m, to, inserts[1..], first.link.None?);
      if first.link.Some? {
        assert m(from + m(from)) == 0;
        assert second.link.None?;
      }
      forall k | 0 <= k < |inserts| - 1 ensures inserts[k].link.None? <==> inserts[k + 1].link.Some? {
        if k > 0 { assert inserts[1..][k - 1] == inserts[k] && inserts[1..][k] == inserts[k + 1]; }
      }
    }
  }

  function Spelled(inserts: seq<Insert>): string {
    if inserts == [] then "" else inserts[0].text + Spelled(inserts[1..])
  }

  /** The inserts spell the text out. */
  lemma {:induction false} CutSpells(text: string, m: Matches, from: nat, inserts: seq<Insert>, afterPlain: bool)
    requires from <= |text| && IsCut(text, m, from, inserts, afterPlain)
    ensures Spelled(inserts) == text[from..]
    decreases |inserts|
  {
    if inserts != [] {
      var to := from + |inserts[0].text|;
      CutSpells(text, m, to, inserts[1..], inserts[0].link.None?);
      assert text[from..] == text[from..to] + text[to..];
    }
  }

  /** Where an insert of a cut stands, and what that says about it. */
  lemma {:induction false} InsertOfCut(
      text: string, m: Matches, from: nat, inserts: seq<Insert>, afterPlain: bool, insert: Insert)
    returns (at: nat)
    requires from <= |text| && IsCut(text, m, from, inserts, afterPlain) && insert in inserts
    ensures from <= at < at + |insert.text| <= |text| && text[at..at + |insert.text|] == insert.text
    ensures insert.link.None? ==> NoMatchIn(m, at, at + |insert.text|)
    ensures insert.link.Some? ==> insert.link.value == insert.text && m(at) == |insert.text|
    decreases |inserts|
  {
    if insert == inserts[0] {
      at := from;
    } else {
      at := InsertOfCut(text, m, from + |inserts[0].text|, inserts[1..], inserts[0].link.None?, insert);
    }
  }

  lemma SpelledCons(inserts: seq<Insert>, k: nat)
    requires 0 < k <= |inserts|
    ensures |Spelled(inserts[..k])| == |inserts[0].text| + |Spelled(inserts[1..][..k - 1])|
  {
    assert inserts[..k][1..] == inserts[1..][..k - 1];
  }

  /** Insert `k` of a cut stands where the inserts before it end. */
  lemma {:induction false} InsertAt(text: string, m: Matches, from: nat, inserts: seq<Insert>, afterPlain: bool, k: nat)
    requires IsCut(text, m, from, inserts, afterPlain) && k < |inserts|
    ensures var at := from + |Spelled(inserts[..k])|;
            && at < at + |inserts[k].text| <= |text| && text[at..at + |inserts[k].text|] == inserts[k].text
            && (inserts[k].link.None? ==> NoMatchIn(m, at, at + |inserts[k].text|))
            && (inserts[k].link.Some? ==> inserts[k].link.value == inserts[k].text && m(at) == |inserts[k].text|)
    decreases |inserts|
  {
    if k > 0 {
      SpelledCons(inserts, k);
      InsertAt(text, m, from + |inserts[0].text|, inserts[1..], inserts[0].link.None?, k - 1);
    } else {
      assert inserts[..0] == [];
    }
  }

  /** A place with a match is inside a link. */
  lemma {:induction false} MatchInLink(
      text: string, m: Matches, from: nat, inserts: seq<Insert>, afterPlain: bool, i: nat)
    returns (k: nat)
    requires IsCut(text, m, from, inserts, afterPlain) && from <= i < |text| && m(i) > 0
    ensures k < |inserts| && inserts[k].link.Some?
    ensures var at := from + |Spelled(inserts[..k])|; at <= i < at + |inserts[k].text|
    decreases |inserts|
  {
    var to := from + |inserts[0].text|;
    if i < to {
      k := 0;
      assert inserts[..0] == [];
    } else {
      k := MatchInLink(text, m, to, inserts[1..], inserts[0].link.None?, i);
      k := k + 1;
      SpelledCons(inserts, k);
    }
  }
}
