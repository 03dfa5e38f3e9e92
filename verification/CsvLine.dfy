/**
 One line of the investor CSV: the quoted-field scanner, the simple specification it refines, and the
 printers it undoes (section 2 of RFC 4180, one line at a time).
 */
module CsvLine {
  import opened Sequences
  import opened Text

  const QUOTE := '"'
  const COMMA := ','

  // ----- the scanner

  /** The fields still to be pushed, from the rest of the line, the field begun and the quote flag. */
  function ScanFrom(rest: string, current: string, inQuotes: bool): (fields: seq<string>)
    ensures fields != []
    decreases |rest|
  {
    if rest == "" then [current]
    else if rest[0] == QUOTE then
      if inQuotes && |rest| > 1 && rest[1] == QUOTE then ScanFrom(rest[2..], current + [QUOTE], true)
      else ScanFrom(rest[1..], current, !inQuotes)
    else if rest[0] == COMMA && !inQuotes then [current] + ScanFrom(rest[1..], "", false)
    else ScanFrom(rest[1..], current + [rest[0]], inQuotes)
  }

  function Parse(line: string): seq<string> {
    ScanFrom(line, "", false)
  }

  method ParseInvestorCsvLine(line: string) returns (fields: seq<string>)
    ensures fields == Parse(line)
  {
    fields := [];
    var current := "";
    var inQuotes := false;
    var i := 0;
    while i < |line|
      invariant 0 <= i <= |line|
      invariant inQuotes <==> OddQuotes(line, i)
      invariant fields + ScanFrom(line[i..], current, inQuotes) == Parse(line)
    {
      QuotesStep(line, i);
      if i + 1 < |line| { QuotesStep(line, i + 1); }
      var here := line[i];
      var nextIsQuote := i + 1 < |line| && line[i + 1] == QUOTE;
      ScanUnfold(line, i, current, inQuotes);
      if here == QUOTE {
        if inQuotes && nextIsQuote {
          current := current + [QUOTE];
          i := i + 2;
        } else {
          inQuotes := !inQuotes;
          i := i + 1;
        }
      } else if here == COMMA && !inQuotes {
        fields := fields + [current];
        current := "";
        i := i + 1;
      } else {
        current := current + [here];
        i := i + 1;
      }
    }
    fields := fields + [current];
  }

  lemma ScanUnfold(line: string, i: nat, current: string, inQuotes: bool)
    requires i < |line|
    ensures ScanFrom(line[i..], current, inQuotes) ==
              if line[i] == QUOTE then
                if inQuotes && i + 1 < |line| && line[i + 1] == QUOTE then
                  ScanFrom(line[i + 2..], current + [QUOTE], true)
                else ScanFrom(line[i + 1..], current, !inQuotes)
              else if line[i] == COMMA && !inQuotes then [current] + ScanFrom(line[i + 1..], "", false)
              else ScanFrom(line[i + 1..], current + [line[i]], inQuotes)
  {
    assert line[i..][1..] == line[i + 1..];
    if i + 1 < |line| {
      assert line[i..][2..] == line[i + 2..];
    }
  }

  function Prefixed(prefix: string, fields: seq<string>): seq<string>
    requires fields != []
  {
    [prefix + fields[0]] + fields[1..]
  }

  // ----- the simple specification

  function Count(s: string, c: char): nat {
    if s == "" then 0 else (if s[0] == c then 1 else 0) + Count(s[1..], c)
  }

  /** An odd number of quotes stands before place `i`. */
  predicate OddQuotes(line: string, i: nat)
    requires i <= |line|
  {
    Count(line[..i], QUOTE) % 2 == 1
  }

  /** A comma preceded by an even number of quotes. */
  predicate IsSeparator(line: string, i: nat)
    requires i < |line|
  {
    line[i] == COMMA && !OddQuotes(line, i)
  }

  /** The places of the separators from `i` on. */
  ghost function SeparatorsFrom(line: string, i: nat): set<nat> {
    set k: nat | i <= k < |line| && IsSeparator(line, k)
  }

  /** The line from `from` on cut at its separators from `i` on, quotes included. */
  function Pieces(line: string, from: nat, i: nat): seq<string>
    requires from <= i <= |line|
    decreases |line| - i
  {
    if i == |line| then [line[from..i]]
    else if IsSeparator(line, i) then [line[from..i]] + Pieces(line, i + 1, i + 1)
    else Pieces(line, from, i + 1)
  }

  /** A scanner without a flag: where the flag would be read, the quotes before the place are counted. */
  function ScanByParity(line: string, i: nat, current: string): seq<string>
    requires i <= |line|
    decreases |line| - i
  {
    if i == |line| then [current]
    else if line[i] == QUOTE then
      if OddQuotes(line, i) && i + 1 < |line| && line[i + 1] == QUOTE then ScanByParity(line, i + 2, current + [QUOTE])
      else ScanByParity(line, i + 1, current)
    else if IsSeparator(line, i) then [current] + ScanByParity(line, i + 1, "")
    else ScanByParity(line, i + 1, current + [line[i]])
  }

  lemma {:induction false} CountAppend(a: string, b: string, c: char)
    ensures Count(a + b, c) == Count(a, c) + Count(b, c)
  {
    if a == "" {
      assert a + b == b;
    } else {
      assert (a + b)[1..] == a[1..] + b;
      CountAppend(a[1..], b, c);
    }
  }

  lemma {:induction false} CountIn(s: string, c: char)
    ensures Count(s, c) > 0 <==> c in s
  {
    if s != "" {
      CountIn(s[1..], c);
    }
  }

  lemma QuotesStep(line: string, i: nat)
    requires i < |line|
    ensures OddQuotes(line, i + 1) <==> (if line[i] == QUOTE then !OddQuotes(line, i) else OddQuotes(line, i))
  {
    assert line[..i + 1] == line[..i] + [line[i]];
    CountAppend(line[..i], [line[i]], QUOTE);
    assert Count([line[i]], QUOTE) == if line[i] == QUOTE then 1 else 0 by { assert [line[i]][1..] == ""; }
  }

  /** At every place the scanner reaches, its quote flag is the parity of the quotes it has consumed. */
  lemma {:induction false} FlagIsParity(line: string, i: nat, current: string)
    requires i <= |line|
    ensures ScanFrom(line[i..], current, OddQuotes(line, i)) == ScanByParity(line, i, current)
    decreases |line| - i
  {
    if i < |line| {
      ScanUnfold(line, i, current, OddQuotes(line, i));
      QuotesStep(line, i);
      if line[i] == QUOTE {
        if OddQuotes(line, i) && i + 1 < |line| && line[i + 1] == QUOTE {
          QuotesStep(line, i + 1);
          FlagIsParity(line, i + 2, current + [QUOTE]);
        } else {
          FlagIsParity(line, i + 1, current);
        }
      } else if IsSeparator(line, i) {
        FlagIsParity(line, i + 1, "");
      } else {
        FlagIsParity(line, i + 1, current + [line[i]]);
      }
    }
  }

  function Unquoted(s: string): string {
    Delete(s, QUOTE)
  }

  lemma {:induction false} UnquotedSnoc(s: string, c: char)
    ensures Unquoted(s + [c]) == Unquoted(s) + (if c == QUOTE then "" else [c])
  {
    if s == "" {
      assert s + [c] == [c] && [c][1..] == "";
    } else {
      assert (s + [c])[1..] == s[1..] + [c];
      UnquotedSnoc(s[1..], c);
    }
  }

  /** Field by field the same text, quotes aside. */
  ghost predicate Agree(fields: seq<string>, pieces: seq<string>) {
    |fields| == |pieces| && forall k :: 0 <= k < |fields| ==> Unquoted(fields[k]) == Unquoted(pieces[k])
  }

  lemma UnquotedStep(line: string, from: nat, i: nat)
    requires from <= i < |line|
    ensures Unquoted(line[from..i + 1]) == Unquoted(line[from..i]) + (if line[i] == QUOTE then "" else [line[i]])
  {
    assert line[from..i + 1] == line[from..i] + [line[i]];
    UnquotedSnoc(line[from..i], line[i]);
  }

  lemma {:induction false} PiecesRefined(line: string, from: nat, i: nat, current: string)
    requires from <= i <= |line| && Unquoted(current) == Unquoted(line[from..i])
    ensures Agree(ScanByParity(line, i, current), Pieces(line, from, i))
    decreases |line| - i
  {
    if i < |line| {
      UnquotedStep(line, from, i);
      UnquotedSnoc(current, line[i]);
      if line[i] == QUOTE {
        if OddQuotes(line, i) && i + 1 < |line| && line[i + 1] == QUOTE {
          UnquotedStep(line, from, i + 1);
          PiecesRefined(line, from, i + 2, current + [QUOTE]);
          assert Pieces(line, from, i + 1) == Pieces(line, from, i + 2);
        } else {
          PiecesRefined(line, from, i + 1, current);
        }
      } else if IsSeparator(line, i) {
        PiecesRefined(line, i + 1, i + 1, "");
      } else {
        PiecesRefined(line, from, i + 1, current + [line[i]]);
      }
    }
  }

  lemma SeparatorsStep(line: string, i: nat)
    requires i < |line|
    ensures i !in SeparatorsFrom(line, i + 1)
    ensures SeparatorsFrom(line, i) == (if IsSeparator(line, i) then {i} else {}) + SeparatorsFrom(line, i + 1)
  {
  }

  /** One piece more than there are separators. */
  lemma {:induction false} PiecesCount(line: string, from: nat, i: nat)
    requires from <= i <= |line|
    ensures |Pieces(line, from, i)| == 1 + |SeparatorsFrom(line, i)|
    decreases |line| - i
  {
    if i == |line| {
      assert SeparatorsFrom(line, i) == {};
    } else if IsSeparator(line, i) {
      PiecesCount(line, i + 1, i + 1);
      SeparatorsStep(line, i);
    } else {
      PiecesCount(line, from, i + 1);
      SeparatorsStep(line, i);
    }
  }

  /** The scanner cuts exactly at the commas preceded by an even number of quotes, and drops quotes only. */
  lemma ParseRefinesPieces(line: string)
    ensures Parse(line) == ScanByParity(line, 0, "")
    ensures |Parse(line)| == 1 + |SeparatorsFrom(line, 0)|
    ensures Agree(Parse(line), Pieces(line, 0, 0))
  {
    FlagIsParity(line, 0, "");
    assert line[0..] == line;
    PiecesRefined(line, 0, 0, "");
    PiecesCount(line, 0, 0);
  }

  // ----- composition

  /** After a text with an even number of quotes, the one open before counted in, a comma ends a field. */
  lemma {:induction false} ScanSplit(a: string, b: string, current: string, inQuotes: bool)
    requires Count(a, QUOTE) % 2 == (if inQuotes then 1 else 0)
    ensures ScanFrom(a + [COMMA] + b, current, inQuotes) == ScanFrom(a, current, inQuotes) + Parse(b)
    decreases |a|
  {
    var s := a + [COMMA] + b;
    if a == "" {
      assert s[0] == COMMA && s[1..] == b;
    } else {
      assert s[0] == a[0] && s[1..] == a[1..] + [COMMA] + b;
      if a[0] == QUOTE {
        if inQuotes && |a| > 1 && a[1] == QUOTE {
          assert s[1] == a[1] && s[2..] == a[2..] + [COMMA] + b;
          assert a[1..][1..] == a[2..];
          ScanSplit(a[2..], b, current + [QUOTE], true);
        } else {
          assert inQuotes ==> |s| > 1 && s[1] != QUOTE;
          ScanSplit(a[1..], b, current, !inQuotes);
        }
      } else if a[0] == COMMA && !inQuotes {
        ScanSplit(a[1..], b, "", false);
      } else {
        ScanSplit(a[1..], b, current + [a[0]], inQuotes);
      }
    }
  }

  /** Parsing is compositional at every comma outside quotes. */
  lemma ParseSplit(a: string, b: string)
    requires Count(a, QUOTE) % 2 == 0
    ensures Parse(a + [COMMA] + b) == Parse(a) + Parse(b)
  {
    ScanSplit(a, b, "", false);
  }

  /** Text after the line that holds no quote and no comma goes to the last field, inside or outside quotes. */
  lemma {:induction false} ScanTail(a: string, tail: string, current: string, inQuotes: bool)
    requires QUOTE !in tail && COMMA !in tail
    ensures var fields := ScanFrom(a, current, inQuotes);
            ScanFrom(a + tail, current, inQuotes) == fields[..|fields| - 1] + [fields[|fields| - 1] + tail]
    decreases |a|, |tail|
  {
    var s := a + tail;
    if a == "" {
      assert s == tail;
      PlainTail(tail, current, inQuotes);
    } else {
      assert s[0] == a[0] && s[1..] == a[1..] + tail;
      if a[0] == QUOTE {
        if inQuotes && |a| > 1 && a[1] == QUOTE {
          assert s[1] == a[1] && s[2..] == a[2..] + tail;
          ScanTail(a[2..], tail, current + [QUOTE], true);
        } else {
          assert inQuotes && |s| > 1 ==> s[1] != QUOTE;
          ScanTail(a[1..], tail, current, !inQuotes);
        }
      } else if a[0] == COMMA && !inQuotes {
        ScanTail(a[1..], tail, "", false);
      } else {
        ScanTail(a[1..], tail, current + [a[0]], inQuotes);
      }
    }
  }

  lemma {:induction false} PlainTail(tail: string, current: string, inQuotes: bool)
    requires QUOTE !in tail && COMMA !in tail
    ensures ScanFrom(tail, current, inQuotes) == [current + tail]
    decreases |tail|
  {
    if tail == "" {
      assert current + tail == current;
    } else {
      PlainTail(tail[1..], current + [tail[0]], inQuotes);
      assert current + [tail[0]] + tail[1..] == current + tail;
    }
  }

  // ----- printing

  function Doubled(s: string): string {
    if s == "" then "" else (if s[0] == QUOTE then [QUOTE, QUOTE] else [s[0]]) + Doubled(s[1..])
  }

  function PrintField(field: string, quoted: bool): string {
    if quoted then [QUOTE] + Doubled(field) + [QUOTE] else field
  }

  /** A field may be printed without quotes when it holds neither a comma nor a quote. */
  predicate Printable(field: string, quoted: bool) {
    quoted || (COMMA !in field && QUOTE !in field)
  }

  function PrintLine(fields: seq<string>, quoted: seq<bool>): string
    requires |fields| == |quoted| > 0
  {
    if |fields| == 1 then PrintField(fields[0], quoted[0])
    else PrintField(fields[0], quoted[0]) + [COMMA] + PrintLine(fields[1..], quoted[1..])
  }

  lemma {:induction false} ScanDoubled(field: string, current: string)
    ensures ScanFrom(Doubled(field) + [QUOTE], current, true) == [current + field]
    decreases |field|
  {
    var s := Doubled(field) + [QUOTE];
    if field == "" {
      assert s == [QUOTE] && s[1..] == "";
      assert current + field == current;
    } else {
      var rest := Doubled(field[1..]) + [QUOTE];
      ScanDoubled(field[1..], current + [field[0]]);
      assert current + [field[0]] + field[1..] == current + field;
      if field[0] == QUOTE {
        assert s == [QUOTE, QUOTE] + rest && s[2..] == rest;
      } else {
        assert s == [field[0]] + rest && s[1..] == rest;
      }
    }
  }

  lemma {:induction false} DoubledIsEven(field: string)
    ensures Count(Doubled(field), QUOTE) % 2 == 0
  {
    if field != "" {
      DoubledIsEven(field[1..]);
      if field[0] == QUOTE {
        assert Doubled(field)[1..][1..] == Doubled(field[1..]);
      }
    }
  }

  lemma QuotedIsEven(field: string)
    ensures Count(PrintField(field, true), QUOTE) % 2 == 0
  {
    var s := PrintField(field, true);
    DoubledIsEven(field);
    CountAppend(Doubled(field), [QUOTE], QUOTE);
    assert s[1..] == Doubled(field) + [QUOTE];
    assert Count([QUOTE], QUOTE) == 1 by { assert [QUOTE][1..] == ""; }
  }

  lemma PrintedFieldParses(field: string, quoted: bool)
    requires Printable(field, quoted)
    ensures Parse(PrintField(field, quoted)) == [field]
    ensures Count(PrintField(field, quoted), QUOTE) % 2 == 0
  {
    var s := PrintField(field, quoted);
    if quoted {
      ScanDoubled(field, "");
      QuotedIsEven(field);
      assert s[1..] == Doubled(field) + [QUOTE];
      assert "" + field == field;
    } else {
      PlainTail(field, "", false);
      CountIn(field, QUOTE);
      assert "" + field == field;
    }
  }

  /** The scanner undoes the printer, for every non-empty list of fields and every admissible choice of quoting. */
  lemma {:induction false} RoundTrip(fields: seq<string>, quoted: seq<bool>)
    requires |fields| == |quoted| > 0
    requires forall i :: 0 <= i < |fields| ==> Printable(fields[i], quoted[i])
    ensures Parse(PrintLine(fields, quoted)) == fields
    decreases |fields|
  {
    PrintedFieldParses(fields[0], quoted[0]);
    if |fields| > 1 {
      RoundTrip(fields[1..], quoted[1..]);
      ScanSplit(PrintField(fields[0], quoted[0]), PrintLine(fields[1..], quoted[1..]), "", false);
    }
  }

  // ----- plain joining, as the template download prints its rows

  function TotalLength(parts: seq<string>): nat {
    if parts == [] then 0 else |parts[0]| + TotalLength(parts[1..])
  }

  /** Characters are conserved: the line is its fields, the separators between them, and dropped quotes. */
  lemma {:induction false} LengthBudget(rest: string, current: string, inQuotes: bool)
    ensures var fields := ScanFrom(rest, current, inQuotes);
            TotalLength(fields) + |fields| - 1 <= |current| + |rest|
    ensures var fields := ScanFrom(rest, current, inQuotes);
            QUOTE in rest ==> TotalLength(fields) + |fields| - 1 < |current| + |rest|
    decreases |rest|
  {
    if rest == "" {
      assert [current][1..] == [];
    } else if rest[0] == QUOTE {
      if inQuotes && |rest| > 1 && rest[1] == QUOTE {
        LengthBudget(rest[2..], current + [QUOTE], true);
      } else {
        LengthBudget(rest[1..], current, !inQuotes);
      }
    } else if rest[0] == COMMA && !inQuotes {
      LengthBudget(rest[1..], "", false);
      var fields := ScanFrom(rest[1..], "", false);
      assert ([current] + fields)[1..] == fields;
    } else {
      LengthBudget(rest[1..], current + [rest[0]], inQuotes);
    }
  }

  lemma {:induction false} JoinedLength(fields: seq<string>)
    requires fields != []
    ensures |Join(fields, [COMMA])| == TotalLength(fields) + |fields| - 1
  {
    if |fields| == 1 {
      assert fields[1..] == [];
    } else {
      JoinedLength(fields[1..]);
    }
  }

  lemma {:induction false} JoinedCount(fields: seq<string>)
    requires fields != []
    ensures Count(Join(fields, [COMMA]), COMMA) >= |fields| - 1
    ensures Count(Join(fields, [COMMA]), COMMA) == |fields| - 1 ==> forall f :: f in fields ==> COMMA !in f
  {
    CountIn(fields[0], COMMA);
    if |fields| > 1 {
      JoinedCount(fields[1..]);
      var rest := Join(fields[1..], [COMMA]);
      CountAppend(fields[0] + [COMMA], rest, COMMA);
      CountAppend(fields[0], [COMMA], COMMA);
      assert Count([COMMA], COMMA) == 1 by { assert [COMMA][1..] == ""; }
    }
  }

  /** Without quotes every comma separates. */
  lemma SeparatorWithoutQuotes(line: string, i: nat)
    requires QUOTE !in line && i < |line|
    ensures IsSeparator(line, i) <==> line[i] == COMMA
  {
    CountIn(line[..i], QUOTE);
  }

  lemma {:induction false} SeparatorsWithoutQuotes(line: string, i: nat)
    requires QUOTE !in line && i <= |line|
    ensures |SeparatorsFrom(line, i)| == Count(line[i..], COMMA)
    decreases |line| - i
  {
    if i == |line| {
      assert SeparatorsFrom(line, i) == {};
    } else {
      assert line[i..][1..] == line[i + 1..];
      SeparatorWithoutQuotes(line, i);
      SeparatorsWithoutQuotes(line, i + 1);
      SeparatorsStep(line, i);
    }
  }

  lemma {:induction false} JoinedHolds(fields: seq<string>, f: string, c: char)
    requires f in fields && c in f
    ensures c in Join(fields, [COMMA])
  {
    if |fields| > 1 && f != fields[0] {
      assert f in fields[1..];
      JoinedHolds(fields[1..], f, c);
    }
  }

  lemma {:induction false} JoinIsPlainPrint(fields: seq<string>, quoted: seq<bool>)
    requires |fields| == |quoted| > 0 && forall i :: 0 <= i < |quoted| ==> !quoted[i]
    ensures Join(fields, [COMMA]) == PrintLine(fields, quoted)
  {
    if |fields| > 1 {
      JoinIsPlainPrint(fields[1..], quoted[1..]);
    }
  }

  /** Joining with commas and no quoting survives the scanner exactly when no field holds a comma or a quote. */
  lemma PlainJoinRoundTrip(fields: seq<string>)
    requires fields != []
    ensures Parse(Join(fields, [COMMA])) == fields <==> forall f :: f in fields ==> COMMA !in f && QUOTE !in f
  {
    var line := Join(fields, [COMMA]);
    if forall f :: f in fields ==> COMMA !in f && QUOTE !in f {
      var quoted := seq(|fields|, _ => false);
      JoinIsPlainPrint(fields, quoted);
      RoundTrip(fields, quoted);
    }
    if Parse(line) == fields {
      JoinedLength(fields);
      LengthBudget(line, "", false);
      forall f | f in fields ensures QUOTE !in f {
        if QUOTE in f { JoinedHolds(fields, f, QUOTE); }
      }
      ParseRefinesPieces(line);
      PiecesCount(line, 0, 0);
      SeparatorsWithoutQuotes(line, 0);
      assert line[0..] == line;
      JoinedCount(fields);
    }
  }

  /** Such a list: one field that holds a comma comes back as two. */
  lemma PlainJoinExample()
    ensures Parse(Join(["a,b"], [COMMA])) == ["a", "b"]
    ensures Parse(Join(["a,b"], [COMMA])) != ["a,b"]
  {
    ParseSplit("a", "b");
    assert "a" + [COMMA] + "b" == "a,b";
    PlainTail("a", "", false);
    PlainTail("b", "", false);
    assert "" + "a" == "a" && "" + "b" == "b";
  }
}
