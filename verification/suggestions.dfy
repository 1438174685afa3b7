/** The reading of the AI's reply in getMovieSuggestionsFromAI (script.js):
    the reply text is trimmed, "N." numbering is cut out, line breaks become
    commas, and the text is split on commas into trimmed, non-empty titles.
    An error reply, a reply without a candidate and a reply that yields no
    title are failures carrying the message the page shows. */
module Suggestions {
  import opened Js

  /** The parts of the parsed JSON reply that the parser looks at. */
  datatype Reply =
    | ApiError(message: Option<string>)  // data.error, with data.error.message when present
    | NoCandidate                        // no data.candidates[0].content
    | Candidate(text: string)            // data.candidates[0].content.parts[0].text

  const UnknownError: string := "Unknown error"
  const NoSuggestions: string := "AI did not return valid movie suggestions"

  // ----- the numbering pattern \d+\.\s* -----

  /** No digit is immediately followed by a dot, so /\d+\./ finds nothing. */
  ghost predicate NoNumbering(s: string) {
    forall i, j :: 0 <= i < j < |s| && j == i + 1 && IsDigit(s[i]) ==> s[j] != '.'
  }

  /** The numbering pattern \d+\.\s* matches at the start of s: the run of digits there is
      followed by a dot. (A shorter run would be followed by a digit, so the
      longest run is the only one to try.) */
  predicate NumeralAt(s: string) {
    var n := DigitPrefix(s);
    0 < n < |s| && s[n] == '.'
  }

  /** The global replacement of \d+\.\s* by nothing: scanning from the left, every match (digits,
      a dot, and the white space after it) is cut out; the scan resumes after
      the match, and moves one character on where nothing matches. */
  function StripNumbering(s: string): (r: string)
    ensures |r| <= |s|
    ensures s != [] && !NumeralAt(s) ==> r != [] && r[0] == s[0]
    decreases |s|
  {
    if s == [] then []
    else if NumeralAt(s) then StripNumbering(TrimStart(s[DigitPrefix(s) + 1..]))
    else [s[0]] + StripNumbering(s[1..])
  }

  /** After the replacement no numbering is left. */
  lemma {:induction false} StripNumberingLeavesNoNumeral(s: string)
    ensures NoNumbering(StripNumbering(s))
    decreases |s|
  {
    if s != [] {
      if NumeralAt(s) {
        StripNumberingLeavesNoNumeral(TrimStart(s[DigitPrefix(s) + 1..]));
      } else {
        var rest := StripNumbering(s[1..]);
        StripNumberingLeavesNoNumeral(s[1..]);
        if IsDigit(s[0]) && rest != [] {
          assert !NumeralAt(s[1..]) && s[1] != '.' by {
            assert DigitPrefix(s) == 1 + DigitPrefix(s[1..]);
          }
        }
        var r := [s[0]] + rest;
        assert forall i :: 1 <= i < |r| ==> r[i] == rest[i - 1];
      }
    }
  }

  /** Text without numbering passes through unchanged. */
  lemma {:induction false} StripNumberingKeepsPlainText(s: string)
    requires NoNumbering(s)
    ensures StripNumbering(s) == s
  {
    if s != [] {
      var n := DigitPrefix(s);
      if 0 < n < |s| {
        assert IsDigit(s[n - 1]) && n - 1 < |s| - 1;
      }
      assert !NumeralAt(s);
      assert NoNumbering(s[1..]) by {
        assert forall i :: 0 <= i < |s| - 1 ==> s[1..][i] == s[i + 1];
      }
      StripNumberingKeepsPlainText(s[1..]);
      assert s == [s[0]] + s[1..];
    }
  }

  /** So replacing twice is replacing once. */
  lemma {:induction false} StripNumberingIsIdempotent(s: string)
    ensures StripNumbering(StripNumbering(s)) == StripNumbering(s)
  {
    StripNumberingLeavesNoNumeral(s);
    StripNumberingKeepsPlainText(StripNumbering(s));
  }

  /** A leading "12. " is cut out together with the spaces after it. */
  lemma {:induction false} StripsLeadingNumeral(ds: string, sp: string, t: string)
    requires ds != [] && AllDigits(ds)
    requires forall i :: 0 <= i < |sp| ==> IsSpace(sp[i])
    requires t == [] || !IsSpace(t[0])
    ensures StripNumbering(ds + "." + sp + t) == StripNumbering(t)
  {
    var s := ds + "." + sp + t;
    assert s == ds + ("." + sp + t);
    DigitPrefixOfNumeral(ds, "." + sp + t);
    assert s[|ds|] == '.';
    assert s[|ds| + 1..] == sp + t;
    TrimStartSkipsSpace(sp, t);
  }

  lemma {:induction false} StripNumberingStep(s: string)
    requires s != [] && !NumeralAt(s)
    ensures StripNumbering(s) == [s[0]] + StripNumbering(s[1..])
  {
  }

  /** Text without numbering in front of the rest is kept as it is, provided
      a digit at its end does not run on into the rest or meet a dot there. */
  lemma {:induction false} StripPlainPrefix(a: string, b: string)
    requires NoNumbering(a)
    requires a == [] || b == [] || !IsDigit(a[|a| - 1]) || (!IsDigit(b[0]) && b[0] != '.')
    ensures StripNumbering(a + b) == a + StripNumbering(b)
  {
    if a == [] {
      assert a + b == b;
    } else {
      var a' := a[1..];
      assert a == [a[0]] + a' && (a + b)[0] == a[0] && (a + b)[1..] == a' + b;
      assert NoNumbering(a') && (a' == [] || a'[|a'| - 1] == a[|a| - 1]) by {
        TailKeepsNoNumbering(a);
      }
      StripPlainPrefix(a', b);
      NoNumeralAtConcat(a, b);
      StripNumberingStep(a + b);
      ConsAssoc(a[0], a', StripNumbering(b));
    }
  }

  lemma {:induction false} ConsAssoc(x: char, a: string, b: string)
    ensures [x] + (a + b) == ([x] + a) + b
  {
  }

  lemma {:induction false} TailKeepsNoNumbering(a: string)
    requires a != [] && NoNumbering(a)
    ensures NoNumbering(a[1..])
  {
    forall i, j | 0 <= i < j < |a| - 1 && j == i + 1 && IsDigit(a[1..][i]) ensures a[1..][j] != '.' {
      assert a[1..][i] == a[i + 1] && a[1..][j] == a[j + 1];
    }
  }

  lemma {:induction false} NoNumeralAtConcat(a: string, b: string)
    requires a != [] && NoNumbering(a)
    requires b == [] || !IsDigit(a[|a| - 1]) || (!IsDigit(b[0]) && b[0] != '.')
    ensures !NumeralAt(a + b)
  {
    var s := a + b;
    var n := DigitPrefix(s);
    DigitRunStaysIn(a, b);
    if 0 < n < |s| {
      assert IsDigit(s[n - 1]);
      if n < |a| {
        assert a[n - 1] == s[n - 1] && a[n] == s[n];
      } else {
        assert a[|a| - 1] == s[n - 1] && b[0] == s[n];
      }
    }
  }

  /** A run of digits starting in a stops inside a when a's last character
      and b's first are not both digits. */
  lemma {:induction false} DigitRunStaysIn(a: string, b: string)
    requires a != []
    requires b == [] || !IsDigit(a[|a| - 1]) || !IsDigit(b[0])
    ensures DigitPrefix(a + b) <= |a|
  {
    var s := a + b;
    assert s[0] == a[0] && s[1..] == a[1..] + b;
    if IsDigit(a[0]) {
      if |a| == 1 {
        assert s[1..] == b;
      } else {
        DigitRunStaysIn(a[1..], b);
      }
    }
  }

  lemma {:induction false} NoNumberingConcat(a: string, b: string)
    requires NoNumbering(a) && NoNumbering(b)
    requires a == [] || b == [] || !IsDigit(a[|a| - 1]) || b[0] != '.'
    ensures NoNumbering(a + b)
  {
    var s := a + b;
    forall i | 0 <= i < |s| - 1 && IsDigit(s[i]) ensures s[i + 1] != '.' {
      if i < |a| - 1 {
        assert s[i] == a[i] && s[i + 1] == a[i + 1];
      } else if i == |a| - 1 {
        assert s[i + 1] == b[0];
      } else {
        assert s[i] == b[i - |a|] && s[i + 1] == b[i - |a| + 1];
      }
    }
  }

  // ----- replace(/\n/g, ',') -----

  function NewlinesToCommas(s: string): (r: string)
    ensures |r| == |s| && '\n' !in r
    ensures forall i :: 0 <= i < |s| ==> r[i] == if s[i] == '\n' then ',' else s[i]
  {
    if s == [] then [] else [if s[0] == '\n' then ',' else s[0]] + NewlinesToCommas(s[1..])
  }

  lemma {:induction false} NewlinesToCommasConcat(a: string, b: string)
    ensures NewlinesToCommas(a + b) == NewlinesToCommas(a) + NewlinesToCommas(b)
  {
    assert NewlinesToCommas(a + b) == NewlinesToCommas(a) + NewlinesToCommas(b);
  }

  lemma {:induction false} NewlinesToCommasKeepsLine(s: string)
    requires '\n' !in s
    ensures NewlinesToCommas(s) == s
  {
    assert NewlinesToCommas(s) == s;
  }

  // ----- split(',') and joining -----

  /** String.prototype.split with a one-character separator: the pieces
      between separators, empty ones included; the empty string gives one
      empty piece. */
  function Split(s: string, c: char): (r: seq<string>)
    ensures r != []
  {
    if s == [] then [[]]
    else
      var rest := Split(s[1..], c);
      if s[0] == c then [[]] + rest else [[s[0]] + rest[0]] + rest[1..]
  }

  /** Array.prototype.join: the parts with sep between neighbours. */
  function Join(parts: seq<string>, sep: string): string {
    if parts == [] then ""
    else if |parts| == 1 then parts[0]
    else parts[0] + sep + Join(parts[1..], sep)
  }

  /** Joining the pieces with the separator gives the text back. */
  lemma {:induction false} JoinSplit(s: string, c: char)
    ensures Join(Split(s, c), [c]) == s
  {
    if s != [] {
      var rest := Split(s[1..], c);
      var tail := s[1..];
      assert Join(rest, [c]) == tail by {
        JoinSplit(tail, c);
      }
      assert s == [s[0]] + tail;
      if s[0] == c {
        var r := [[]] + rest;
        assert r[1..] == rest;
        assert Join(r, [c]) == [] + [c] + Join(rest, [c]);
      } else {
        JoinGrowsFirst(s[0], rest, [c]);
      }
    }
  }

  /** A character added to the front of the first part comes first in the join. */
  lemma {:induction false} JoinGrowsFirst(a: char, parts: seq<string>, sep: string)
    requires parts != []
    ensures Join([[a] + parts[0]] + parts[1..], sep) == [a] + Join(parts, sep)
  {
    var r := [[a] + parts[0]] + parts[1..];
    assert r[0] == [a] + parts[0] && r[1..] == parts[1..];
    if |parts| > 1 {
      var more := Join(parts[1..], sep);
      assert ([a] + parts[0]) + sep + more == [a] + (parts[0] + sep + more);
    }
  }

  lemma {:induction false} SplitPlain(a: string, c: char)
    requires c !in a
    ensures Split(a, c) == [a]
  {
    if a != [] {
      SplitPlain(a[1..], c);
      assert a == [a[0]] + a[1..];
    }
  }

  /** A piece without the separator, the separator, then the rest. */
  lemma {:induction false} SplitAt(a: string, c: char, b: string)
    requires c !in a
    ensures Split(a + [c] + b, c) == [a] + Split(b, c)
  {
    var s := a + [c] + b;
    if a == [] {
      assert s == [c] + b && s[1..] == b;
    } else {
      assert s[0] == a[0] && s[1..] == a[1..] + [c] + b;
      SplitAt(a[1..], c, b);
      assert a == [a[0]] + a[1..];
    }
  }

  /** No piece holds the separator, nor a character the text lacks. */
  lemma {:induction false} SplitAvoids(s: string, c: char, d: char)
    requires d == c || d !in s
    ensures forall i :: 0 <= i < |Split(s, c)| ==> d !in Split(s, c)[i]
  {
    if s != [] {
      assert d == c || d !in s[1..] by {
        assert forall i :: 0 <= i < |s| - 1 ==> s[1..][i] == s[i + 1];
      }
      SplitAvoids(s[1..], c, d);
    }
  }

  lemma {:induction false} JoinCons(t: string, rest: seq<string>, sep: string)
    requires rest != []
    ensures Join([t] + rest, sep) == t + sep + Join(rest, sep)
  {
    assert ([t] + rest)[1..] == rest;
  }

  lemma {:induction false} JoinEnds(parts: seq<string>, sep: string)
    requires parts != [] && forall i :: 0 <= i < |parts| ==> parts[i] != []
    ensures var j := Join(parts, sep);
      j != [] && j[0] == parts[0][0] && j[|j| - 1] == parts[|parts| - 1][|parts[|parts| - 1]| - 1]
  {
    if |parts| > 1 {
      JoinEnds(parts[1..], sep);
    }
  }

  // ----- map(trim) and filter(non-empty) -----

  function TrimAll(parts: seq<string>): (r: seq<string>)
    ensures |r| == |parts|
    ensures forall i {:trigger r[i]} :: 0 <= i < |parts| ==> r[i] == Trim(parts[i])
  {
    if parts == [] then [] else [Trim(parts[0])] + TrimAll(parts[1..])
  }

  function NonEmptyOnly(parts: seq<string>): (r: seq<string>)
    ensures |r| <= |parts|
    ensures forall x :: x in r <==> x in parts && x != []
  {
    if parts == [] then []
    else (if parts[0] != [] then [parts[0]] else []) + NonEmptyOnly(parts[1..])
  }

  /** The filter works piece by piece: it keeps the non-empty pieces in their
      order and with their repeats. */
  lemma {:induction false} NonEmptyOnlyDistributes(a: seq<string>, b: seq<string>)
    ensures NonEmptyOnly(a + b) == NonEmptyOnly(a) + NonEmptyOnly(b)
  {
    if a == [] {
      assert a + b == b;
    } else {
      assert (a + b)[0] == a[0] && (a + b)[1..] == a[1..] + b;
      NonEmptyOnlyDistributes(a[1..], b);
    }
  }

  /** Pieces that are all non-empty pass the filter unchanged. */
  lemma {:induction false} NonEmptyOnlyKeepsNonEmpty(parts: seq<string>)
    requires forall i :: 0 <= i < |parts| ==> parts[i] != []
    ensures NonEmptyOnly(parts) == parts
  {
    if parts != [] {
      NonEmptyOnlyKeepsNonEmpty(parts[1..]);
    }
  }

  lemma {:induction false} TrimKeepsOut(s: string, d: char)
    requires d !in s
    ensures d !in Trim(s)
  {
    var t := TrimStart(s);
    var r := TrimEnd(t);
    TrimStartIsSuffix(s);
    TrimEndIsPrefix(t);
  }

  lemma {:induction false} CleanCons(x: string, xs: seq<string>)
    ensures NonEmptyOnly(TrimAll([x] + xs)) ==
      (if Trim(x) != [] then [Trim(x)] else []) + NonEmptyOnly(TrimAll(xs))
  {
    var ys := TrimAll([x] + xs);
    assert ys == [Trim(x)] + TrimAll(xs) by {
      assert ([x] + xs)[1..] == xs;
    }
    assert ys[1..] == TrimAll(xs);
  }

  lemma {:induction false} CleanSingle(x: string)
    ensures NonEmptyOnly(TrimAll([x])) == if Trim(x) != [] then [Trim(x)] else []
  {
    assert [x][1..] == [];
  }

  // ----- the whole reading -----

  /** A title as the parser hands it on. */
  predicate IsEntry(e: string) {
    e != [] && Trimmed(e) && ',' !in e && '\n' !in e
  }

  /** trim, replace the numbering, replace the line breaks, split, trim each
      piece, keep the non-empty ones. */
  function Entries(text: string): seq<string> {
    NonEmptyOnly(TrimAll(Split(Plain(text), ',')))
  }

  /** The text before the split: trimmed, numbering cut out, line breaks
      turned into commas. */
  function Plain(text: string): (plain: string)
    ensures '\n' !in plain
  {
    NewlinesToCommas(StripNumbering(Trim(text)))
  }

  /** Every title read is non-empty, trimmed and free of separators. */
  lemma {:induction false} EntriesAreClean(text: string)
    ensures forall i :: 0 <= i < |Entries(text)| ==> IsEntry(Entries(text)[i])
  {
    var plain := Plain(text);
    SplitAvoids(plain, ',', ',');
    SplitAvoids(plain, ',', '\n');
    CleanEntries(Split(plain, ','));
    assert Entries(text) == NonEmptyOnly(TrimAll(Split(plain, ',')));
  }

  lemma {:induction false} CleanEntries(pieces: seq<string>)
    requires forall i :: 0 <= i < |pieces| ==> ',' !in pieces[i] && '\n' !in pieces[i]
    ensures forall i :: 0 <= i < |NonEmptyOnly(TrimAll(pieces))| ==> IsEntry(NonEmptyOnly(TrimAll(pieces))[i])
  {
    if pieces != [] {
      var x, xs := pieces[0], pieces[1..];
      CleanCons(x, xs);
      TrimKeepsOut(x, ',');
      TrimKeepsOut(x, '\n');
      CleanEntries(xs);
      assert pieces == [x] + xs;
    }
  }

  /** getMovieSuggestionsFromAI after the fetch: the titles, or the message
      of the error it throws. */
  function ParseSuggestions(reply: Reply): (r: Result<seq<string>, string>)
    ensures r.Ok? <==> reply.Candidate? && Entries(reply.text) != []
    ensures r.Ok? ==> r.value != [] && forall i :: 0 <= i < |r.value| ==> IsEntry(r.value[i])
    ensures reply.ApiError? && reply.message.Some? && reply.message.value != [] ==>
      r == Err("API Error: " + reply.message.value)
    ensures reply.ApiError? && (reply.message.None? || reply.message.value == []) ==>
      r == Err("API Error: " + UnknownError)
    ensures !reply.ApiError? && r.Err? ==> r.error == NoSuggestions
  {
    match reply
    case ApiError(message) =>
      Err("API Error: " + if message.Some? && message.value != [] then message.value else UnknownError)
    case NoCandidate => Err(NoSuggestions)
    case Candidate(text) =>
      EntriesAreClean(text);
      var list := Entries(text);
      if list != [] then Ok(list) else Err(NoSuggestions)
  }

  // ----- round trips -----

  /** A title the reading gives back unchanged. */
  ghost predicate PlainTitle(t: string) {
    IsEntry(t) && NoNumbering(t)
  }

  /** Pieces "sp t0", "gap t1", "gap t2", ... clean up to the titles. */
  lemma {:induction false} PiecesOfJoin(sp: string, titles: seq<string>, gap: string)
    requires titles != [] && forall i :: 0 <= i < |titles| ==> IsEntry(titles[i])
    requires forall i :: 0 <= i < |sp| ==> IsSpace(sp[i])
    requires forall i :: 0 <= i < |gap| ==> IsSpace(gap[i])
    ensures NonEmptyOnly(TrimAll(Split(sp + Join(titles, [','] + gap), ','))) == titles
    decreases |titles|
  {
    var t := titles[0];
    if |titles| == 1 {
      assert IsEntry(t) && Join(titles, [','] + gap) == t && titles == [t];
      PieceOfTitle(sp, t);
    } else {
      var rest := Join(titles[1..], [','] + gap);
      var later := Split(gap + rest, ',');
      assert NonEmptyOnly(TrimAll(Split(sp + Join(titles, [','] + gap), ','))) ==
        [t] + NonEmptyOnly(TrimAll(later))
      by {
        assert IsEntry(t);
        PieceAssoc(sp, t, gap, rest);
        SplitAt(sp + t, ',', gap + rest);
        PieceOfTitle(sp, t);
        CleanCons(sp + t, later);
      }
      assert NonEmptyOnly(TrimAll(later)) == titles[1..] by {
        EntriesTail(titles);
        PiecesOfJoin(gap, titles[1..], gap);
      }
      ConsTail(titles);
    }
  }

  /** One title after its leading spaces: one piece, which cleans up to the
      title. */
  lemma {:induction false} PieceOfTitle(sp: string, t: string)
    requires IsEntry(t)
    requires forall i :: 0 <= i < |sp| ==> IsSpace(sp[i])
    ensures ',' !in sp + t && Trim(sp + t) == t
    ensures NonEmptyOnly(TrimAll(Split(sp + t, ','))) == [t]
  {
    TrimSkipsLeadingSpace(sp, t);
    TrimmedIsFixed(t);
    SplitPlain(sp + t, ',');
    CleanSingle(sp + t);
  }

  lemma {:induction false} EntriesTail(titles: seq<string>)
    requires titles != [] && forall i :: 0 <= i < |titles| ==> IsEntry(titles[i])
    ensures forall i :: 0 <= i < |titles| - 1 ==> IsEntry(titles[1..][i])
  {
    assert forall i :: 0 <= i < |titles| - 1 ==> titles[1..][i] == titles[i + 1];
  }

  lemma {:induction false} PieceAssoc(sp: string, t: string, gap: string, rest: string)
    ensures sp + (t + ([','] + gap) + rest) == (sp + t) + [','] + (gap + rest)
  {
  }

  lemma {:induction false} ConsTail(s: seq<string>)
    requires s != []
    ensures [s[0]] + s[1..] == s
  {
  }

  lemma {:induction false} NewlinesOfJoin(titles: seq<string>, sep: string)
    requires forall i :: 0 <= i < |titles| ==> '\n' !in titles[i]
    ensures NewlinesToCommas(Join(titles, sep)) == Join(titles, NewlinesToCommas(sep))
  {
    if |titles| == 1 {
      NewlinesToCommasKeepsLine(titles[0]);
    } else if |titles| > 1 {
      var t, rest := titles[0], titles[1..];
      NewlinesOfJoin(rest, sep);
      NewlinesToCommasConcat(t + sep, Join(rest, sep));
      NewlinesToCommasConcat(t, sep);
      NewlinesToCommasKeepsLine(t);
    }
  }

  lemma {:induction false} StripOfJoin(titles: seq<string>, sep: string)
    requires forall i :: 0 <= i < |titles| ==> PlainTitle(titles[i])
    requires sep == ", "
    ensures StripNumbering(Join(titles, sep)) == Join(titles, sep)
  {
    if |titles| == 1 {
      StripNumberingKeepsPlainText(titles[0]);
    } else if |titles| > 1 {
      var t, rest := titles[0], titles[1..];
      StripOfJoin(rest, sep);
      NoNumberingConcat(t, sep);
      StripPlainPrefix(t + sep, Join(rest, sep));
    }
  }

  /** A reply in the format the prompt asks for, "Movie1, Movie2, Movie3",
      reads back as exactly those titles. */
  lemma {:induction false} ParseOfCommaListing(titles: seq<string>)
    requires titles != [] && forall i :: 0 <= i < |titles| ==> PlainTitle(titles[i])
    ensures ParseSuggestions(Candidate(Join(titles, ", "))) == Ok(titles)
  {
    var text := Join(titles, ", ");
    JoinEnds(titles, ", ");
    TrimmedIsFixed(text);
    StripOfJoin(titles, ", ");
    NewlinesOfJoin(titles, ", ");
    assert NewlinesToCommas(", ") == ", ";
    PiecesOfJoin("", titles, " ");
    assert "" + text == text && [','] + " " == ", ";
  }

  /** Line k of a numbered reply: its label, a dot, a space, the title. */
  predicate NumberedLines(labels: seq<string>, titles: seq<string>, lines: seq<string>) {
    |labels| == |titles| == |lines| &&
    forall i :: 0 <= i < |lines| ==>
      labels[i] != [] && AllDigits(labels[i]) && lines[i] == labels[i] + ". " + titles[i]
  }

  lemma {:induction false} StripOfNumberedJoin(labels: seq<string>, titles: seq<string>, lines: seq<string>)
    requires NumberedLines(labels, titles, lines)
    requires forall i :: 0 <= i < |titles| ==> PlainTitle(titles[i])
    ensures StripNumbering(Join(lines, "\n")) == Join(titles, "\n")
  {
    if lines != [] {
      var ds, t := labels[0], titles[0];
      assert PlainTitle(t) && lines[0] == ds + ". " + t;
      if |lines| == 1 {
        assert lines[0] == ds + "." + " " + t;
        StripsLeadingNumeral(ds, " ", t);
        StripNumberingKeepsPlainText(t);
      } else {
        var rest := Join(lines[1..], "\n");
        assert Join(lines, "\n") == ds + "." + " " + (t + "\n" + rest) by {
          LineAssoc(ds, t, rest);
        }
        StripsLeadingNumeral(ds, " ", t + "\n" + rest);
        NoNumberingConcat(t, "\n");
        StripPlainPrefix(t + "\n", rest);
        NumberedLinesTail(labels, titles, lines);
        StripOfNumberedJoin(labels[1..], titles[1..], lines[1..]);
      }
    }
  }

  lemma {:induction false} LineAssoc(ds: string, t: string, rest: string)
    ensures (ds + ". " + t) + "\n" + rest == ds + "." + " " + (t + "\n" + rest)
  {
  }

  lemma {:induction false} NumberedLinesTail(labels: seq<string>, titles: seq<string>, lines: seq<string>)
    requires NumberedLines(labels, titles, lines) && lines != []
    requires forall i :: 0 <= i < |titles| ==> PlainTitle(titles[i])
    ensures NumberedLines(labels[1..], titles[1..], lines[1..])
    ensures forall i :: 0 <= i < |titles| - 1 ==> PlainTitle(titles[1..][i])
  {
    assert forall i :: 0 <= i < |lines| - 1 ==>
      labels[1..][i] == labels[i + 1] && titles[1..][i] == titles[i + 1] && lines[1..][i] == lines[i + 1];
  }

  /** A numbered reply, one "N. Title" per line, reads back as the titles
      without their numbers. */
  lemma {:induction false} ParseOfNumberedListing(labels: seq<string>, titles: seq<string>, lines: seq<string>)
    requires NumberedLines(labels, titles, lines)
    requires titles != [] && forall i :: 0 <= i < |titles| ==> PlainTitle(titles[i])
    ensures ParseSuggestions(Candidate(Join(lines, "\n"))) == Ok(titles)
  {
    EntriesOfNumberedListing(labels, titles, lines);
    ParseOfEntries(Join(lines, "\n"), titles);
  }

  lemma {:induction false} EntriesOfNumberedListing(labels: seq<string>, titles: seq<string>, lines: seq<string>)
    requires NumberedLines(labels, titles, lines)
    requires titles != [] && forall i :: 0 <= i < |titles| ==> PlainTitle(titles[i])
    ensures Entries(Join(lines, "\n")) == titles
  {
    PlainOfNumberedListing(labels, titles, lines);
    PiecesOfJoin("", titles, "");
    assert "" + Join(titles, ",") == Join(titles, ",") && [','] + "" == ",";
  }

  lemma {:induction false} ParseOfEntries(text: string, titles: seq<string>)
    requires titles != [] && Entries(text) == titles
    ensures ParseSuggestions(Candidate(text)) == Ok(titles)
  {
  }

  /** Before the split, a numbered reply is its titles joined by commas. */
  lemma {:induction false} PlainOfNumberedListing(labels: seq<string>, titles: seq<string>, lines: seq<string>)
    requires NumberedLines(labels, titles, lines)
    requires titles != [] && forall i :: 0 <= i < |titles| ==> PlainTitle(titles[i])
    ensures Plain(Join(lines, "\n")) == Join(titles, ",")
  {
    var text := Join(lines, "\n");
    var last := |lines| - 1;
    assert lines[0][0] == labels[0][0];
    assert lines[last][|lines[last]| - 1] == titles[last][|titles[last]| - 1];
    JoinEnds(lines, "\n");
    TrimmedIsFixed(text);
    StripOfNumberedJoin(labels, titles, lines);
    NewlinesOfJoin(titles, "\n");
    assert NewlinesToCommas("\n") == ",";
  }
}
