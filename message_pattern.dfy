/**
 What the two regular expressions of `_parse_message` mean, stated directly
 over positions in the text, and the proof that the scanners of
 MessageParser compute exactly that.

 A match of the main pattern at position 0 is given by five positions:
   s[..a]      the amount group `\d+(?:\.\d+)?`
   s[a..w1]    `\s+`
   s[w1..k]    `on` or `for`
   s[k..w2]    `\s+`
   s[w2..d]    the description group `[^.]+`
   s[d]        the period `\.`
 The regex engine picks one such match by backtracking; the lemmas below show
 that every match has the same amount and the same stripped description, so
 which one it picks does not matter. For the note, `re.search` takes the
 leftmost start position at which the note pattern matches.
 */
module MessagePattern {
  import opened Wrappers
  import opened Text
  import opened MessageParser
  import Calendar

  /** `\d+(?:\.\d+)?` matches the whole of `t`. */
  ghost predicate IsAmountLexeme(t: string) {
    || (|t| > 0 && AllDigits(t))
    || exists j | 0 < j < |t| - 1 :: t[j] == '.' && AllDigits(t[..j]) && AllDigits(t[j + 1..])
  }

  /** The main pattern matches at position 0 with the given group bounds. */
  ghost predicate MainMatchAt(s: string, a: nat, w1: nat, k: nat, w2: nat, d: nat) {
    && 0 < a < w1 < k < w2 < d < |s|
    && IsAmountLexeme(s[..a])
    && AllSpace(s[a..w1])
    && (s[w1..k] == "on" || s[w1..k] == "for")
    && AllSpace(s[k..w2])
    && '.' !in s[w2..d]
    && s[d] == '.'
  }

  /** `re.match(main_pattern, s)` is not `None`. */
  ghost predicate MainPatternMatches(s: string) {
    exists a: nat, w1: nat, k: nat, w2: nat, d: nat :: MainMatchAt(s, a, w1, k, w2, d)
  }

  /** The note pattern matches at position `i`, with `\s*` ending at `w` and
      the note group ending at the period `s[e]`. */
  ghost predicate NoteMatchAt(s: string, i: nat, w: nat, e: nat) {
    && i + 5 <= w < e < |s|
    && (s[i] == 'N' || s[i] == 'n') && s[i + 1..i + 5] == "ote:"
    && AllSpace(s[i + 5..w])
    && '.' !in s[w..e]
    && s[e] == '.'
  }

  ghost predicate NoteMatchesAt(s: string, i: nat) {
    exists w: nat, e: nat :: NoteMatchAt(s, i, w, e)
  }

  /** No match of the note pattern starts before `j`. */
  ghost predicate NoNoteBefore(s: string, j: nat) {
    forall i | 0 <= i < j :: !NoteMatchesAt(s, i)
  }

  // ---------------------------------------------------------------------
  // The amount lexeme

  /** A well-formed amount prints as a lexeme of the amount group. */
  lemma LexemeMatchesAmountGroup(d: Decimal)
    requires d.Valid()
    ensures IsAmountLexeme(d.Lexeme())
  {
    if d.fraction != [] {
      var t := d.Lexeme();
      var j := |d.whole|;
      assert t[j] == '.' && t[..j] == d.whole && t[j + 1..] == d.fraction;
    }
  }

  lemma LexemeShape(d: Decimal)
    requires d.Valid()
    ensures forall m | 0 <= m < |d.whole| :: d.Lexeme()[m] == d.whole[m] && IsDigit(d.Lexeme()[m])
    ensures d.fraction == [] ==> d.Lexeme() == d.whole
    ensures d.fraction != [] ==> |d.whole| < |d.Lexeme()| && d.Lexeme()[|d.whole|] == '.'
    ensures d.fraction != [] ==> d.Lexeme()[|d.whole| + 1..] == d.fraction
  {
  }

  /** The lexeme determines the amount: `Lexeme` is injective on
      well-formed amounts. */
  lemma LexemeInjective(d1: Decimal, d2: Decimal)
    requires d1.Valid() && d2.Valid() && d1.Lexeme() == d2.Lexeme()
    ensures d1 == d2
  {
    LexemeShape(d1);
    LexemeShape(d2);
    if d1.fraction != [] && d2.fraction != [] && |d1.whole| == |d2.whole| {
      assert d1.whole == d1.Lexeme()[..|d1.whole|] == d2.whole;
    }
  }

  /** Any amount group that whitespace follows is the one `ScanAmount` reads. */
  lemma AmountDetermined(s: string, a: nat, w1: nat)
    requires 0 < a < w1 <= |s| && IsAmountLexeme(s[..a]) && AllSpace(s[a..w1])
    ensures ScanAmount(s).Some? && ScanAmount(s).value.1 == a
  {
    var t := s[..a];
    assert IsSpace(s[a]) by {
      assert s[a] == s[a..w1][0];
    }
    if |t| > 0 && AllDigits(t) {
      forall m | 0 <= m < a ensures IsDigit(s[m]) {
        assert s[m] == t[m];
      }
      SpanStops(s, 0, a, IsDigit);
    } else {
      var j :| 0 < j < |t| - 1 && t[j] == '.' && AllDigits(t[..j]) && AllDigits(t[j + 1..]);
      forall m | 0 <= m < j ensures IsDigit(s[m]) {
        assert s[m] == t[..j][m];
      }
      SpanStops(s, 0, j, IsDigit);
      forall m | j + 1 <= m < a ensures IsDigit(s[m]) {
        assert s[m] == t[j + 1..][m - j - 1];
      }
      SpanStops(s, j + 1, a, IsDigit);
    }
  }

  lemma KeywordDetermined(s: string, w1: nat, k: nat)
    requires w1 < k <= |s|
    requires s[w1..k] == "on" || s[w1..k] == "for"
    ensures KeywordEnd(s, w1) == Some(k)
  {
    if s[w1..k] == "for" {
      assert s[w1] == 'f';
    }
  }

  /** Any match of the description part is the one `ScanDescription`
      reads: the first period after the keyword ends it, and the whitespace
      in front of the description group does not survive `strip`. */
  lemma DescriptionDetermined(s: string, k: nat, w2: nat, d: nat)
    requires k < w2 < d < |s|
    requires AllSpace(s[k..w2])
    requires '.' !in s[w2..d] && s[d] == '.'
    ensures ScanDescription(s, k) == Some((Strip(s[w2..d]), d + 1))
  {
    assert s[k] == s[k..w2][0];
    assert s[k..d] == s[k..w2] + s[w2..d];
    assert '.' !in s[k..w2];
    FirstOccurrence(s, '.', k, d);
    StripSpacePrefix(s[k..w2], s[w2..d]);
  }

  /** Any match of the part after the amount is the one `ScanClause` reads,
      with the same stripped description. */
  lemma ClauseDetermined(s: string, a: nat, w1: nat, k: nat, w2: nat, d: nat)
    requires a < w1 < k < w2 < d < |s|
    requires AllSpace(s[a..w1])
    requires s[w1..k] == "on" || s[w1..k] == "for"
    requires AllSpace(s[k..w2])
    requires '.' !in s[w2..d] && s[d] == '.'
    ensures ScanClause(s, a) == Some((Strip(s[w2..d]), d + 1))
  {
    assert s[w1] == s[w1..k][0];
    SpaceRun(s, a, w1);
    SpanStops(s, a, w1, IsSpace);
    KeywordDetermined(s, w1, k);
    DescriptionDetermined(s, k, w2, d);
  }

  /** Every match of the main pattern gives what `ScanMain` reports. */
  lemma MainMatchDetermined(s: string, a: nat, w1: nat, k: nat, w2: nat, d: nat)
    requires MainMatchAt(s, a, w1, k, w2, d)
    ensures ScanMain(s).Some?
    ensures ScanMain(s).value.amount.Lexeme() == s[..a]
    ensures ScanMain(s).value.description == Strip(s[w2..d])
    ensures ScanMain(s).value.end == d + 1
  {
    AmountDetermined(s, a, w1);
    ClauseDetermined(s, a, w1, k, w2, d);
  }

  lemma DescriptionWitness(s: string, k: nat) returns (w2: nat, d: nat)
    requires k <= |s| && ScanDescription(s, k).Some?
    ensures k < w2 < d < |s| && AllSpace(s[k..w2]) && '.' !in s[w2..d] && s[d] == '.'
  {
    w2 := k + 1;
    d := IndexOf(s, '.', k).value;
    assert s[k..d] == s[k..w2] + s[w2..d];
  }

  lemma ClauseWitness(s: string, a: nat) returns (w1: nat, k: nat, w2: nat, d: nat)
    requires a <= |s| && ScanClause(s, a).Some?
    ensures a < w1 < k < w2 < d < |s|
    ensures AllSpace(s[a..w1]) && (s[w1..k] == "on" || s[w1..k] == "for")
    ensures AllSpace(s[k..w2]) && '.' !in s[w2..d] && s[d] == '.'
  {
    w1 := Span(s, a, IsSpace);
    k := KeywordEnd(s, w1).value;
    w2, d := DescriptionWitness(s, k);
  }

  /** When `ScanMain` succeeds, the main pattern matches; the positions are
      returned. */
  lemma ScanMainWitness(s: string) returns (a: nat, w1: nat, k: nat, w2: nat, d: nat)
    requires ScanMain(s).Some?
    ensures MainMatchAt(s, a, w1, k, w2, d)
  {
    a := ScanAmount(s).value.1;
    LexemeMatchesAmountGroup(ScanAmount(s).value.0);
    w1, k, w2, d := ClauseWitness(s, a);
  }

  /** `ScanMain` succeeds exactly when the main pattern matches at position 0,
      and then it reports the amount and stripped description of every match. */
  lemma MainScannerIsPattern(s: string)
    ensures ScanMain(s).Some? <==> MainPatternMatches(s)
    ensures forall a: nat, w1: nat, k: nat, w2: nat, d: nat | MainMatchAt(s, a, w1, k, w2, d) ::
      && ScanMain(s).Some?
      && ScanMain(s).value.amount.Lexeme() == s[..a]
      && ScanMain(s).value.description == Strip(s[w2..d])
  {
    if ScanMain(s).Some? {
      var a, w1, k, w2, d := ScanMainWitness(s);
    }
    forall a: nat, w1: nat, k: nat, w2: nat, d: nat | MainMatchAt(s, a, w1, k, w2, d)
      ensures ScanMain(s).Some?
      ensures ScanMain(s).value.amount.Lexeme() == s[..a]
      ensures ScanMain(s).value.description == Strip(s[w2..d])
    {
      MainMatchDetermined(s, a, w1, k, w2, d);
    }
  }

  // ---------------------------------------------------------------------
  // The note

  /** Any match of the note pattern at `i` is what `NoteAt` reports. */
  lemma NoteCaptureDetermined(s: string, i: nat, w: nat, e: nat)
    requires NoteMatchAt(s, i, w, e)
    ensures NoteAt(s, i) == Some(Strip(s[w..e]))
  {
    assert s[i + 5..e] == s[i + 5..w] + s[w..e];
    assert '.' !in s[i + 5..w];
    FirstOccurrence(s, '.', i + 5, e);
    StripSpacePrefix(s[i + 5..w], s[w..e]);
  }

  /** `NoteAt` succeeds exactly where the note pattern matches. */
  lemma NoteAtIsPattern(s: string, i: nat)
    ensures NoteAt(s, i).Some? <==> NoteMatchesAt(s, i)
  {
    if NoteAt(s, i).Some? {
      var e := IndexOf(s, '.', i + 5).value;
      assert NoteMatchAt(s, i, i + 5, e);
    }
    if NoteMatchesAt(s, i) {
      var w, e :| NoteMatchAt(s, i, w, e);
      NoteCaptureDetermined(s, i, w, e);
    }
  }

  /** `FindNote` from `i` finds nothing exactly when the note pattern
      matches nowhere from `i` on. */
  lemma {:induction false} FindNoteNone(s: string, i: nat)
    requires i <= |s|
    ensures FindNote(s, i).None? <==> forall j | i <= j < |s| :: !NoteMatchesAt(s, j)
    decreases |s| - i
  {
    if i < |s| {
      NoteAtIsPattern(s, i);
      FindNoteNone(s, i + 1);
    }
  }

  /** `FindNote` from `i` reports the capture of the leftmost match. */
  lemma {:induction false} FindNoteLeftmost(s: string, i: nat, j: nat, w: nat, e: nat)
    requires i <= j && NoteMatchAt(s, j, w, e)
    requires forall m | i <= m < j :: !NoteMatchesAt(s, m)
    ensures FindNote(s, i) == Some(Strip(s[w..e]))
    decreases j - i
  {
    if i == j {
      NoteCaptureDetermined(s, j, w, e);
    } else {
      NoteAtIsPattern(s, i);
      FindNoteLeftmost(s, i + 1, j, w, e);
    }
  }

  // ---------------------------------------------------------------------
  // The parser

  /** `_parse_message` succeeds exactly when the main pattern matches at the
      start; the amount is the text of the amount group, the description is
      the stripped description group of any match, and the note is the
      stripped note group of the leftmost match of the note pattern in the
      whole message, or `None` when there is none. */
  lemma ParseMessageIsPatternMatch(message: string, today: Calendar.Date)
    requires today.Valid()
    ensures ParseMessage(message, today).Success? <==> MainPatternMatches(message)
    ensures forall a: nat, w1: nat, k: nat, w2: nat, d: nat | MainMatchAt(message, a, w1, k, w2, d) ::
      && ParseMessage(message, today).Success?
      && ParseMessage(message, today).value.amount.Lexeme() == message[..a]
      && ParseMessage(message, today).value.description == Strip(message[w2..d])
    ensures ParseMessage(message, today).Success? ==>
      (ParseMessage(message, today).value.note.None? <==>
         forall j | 0 <= j < |message| :: !NoteMatchesAt(message, j))
    ensures ParseMessage(message, today).Success? ==>
      forall j: nat, w: nat, e: nat | NoteMatchAt(message, j, w, e) && NoNoteBefore(message, j) ::
        ParseMessage(message, today).value.note == Some(Strip(message[w..e]))
  {
    MainScannerIsPattern(message);
    FindNoteNone(message, 0);
    forall j: nat, w: nat, e: nat | NoteMatchAt(message, j, w, e) && NoNoteBefore(message, j)
      ensures FindNote(message, 0) == Some(Strip(message[w..e]))
    {
      FindNoteLeftmost(message, 0, j, w, e);
    }
  }

  /** A match of the main pattern only looks at the text up to its period. */
  lemma MainMatchIgnoresTail(s: string, s': string, a: nat, w1: nat, k: nat, w2: nat, d: nat)
    requires MainMatchAt(s, a, w1, k, w2, d)
    requires d < |s'| && s'[..d + 1] == s[..d + 1]
    ensures MainMatchAt(s', a, w1, k, w2, d)
    ensures s'[..a] == s[..a] && s'[w2..d] == s[w2..d]
  {
    var p := s[..d + 1];
    assert s[..a] == p[..a] == s'[..a];
    assert s[a..w1] == p[a..w1] == s'[a..w1];
    assert s[w1..k] == p[w1..k] == s'[w1..k];
    assert s[k..w2] == p[k..w2] == s'[k..w2];
    assert s[w2..d] == p[w2..d] == s'[w2..d];
    assert s[d] == p[d] == s'[d];
  }

  /** Text after the period that ends the description changes neither the
      amount nor the description (nor where the main match ends). */
  lemma MainIgnoresTail(s: string, t: string)
    requires ScanMain(s).Some?
    ensures ScanMain(s[..ScanMain(s).value.end] + t) == ScanMain(s)
  {
    var m := ScanMain(s).value;
    var s' := s[..m.end] + t;
    var a, w1, k, w2, d := ScanMainWitness(s);
    MainMatchDetermined(s, a, w1, k, w2, d);
    assert s'[..d + 1] == s[..d + 1];
    MainMatchIgnoresTail(s, s', a, w1, k, w2, d);
    MainMatchDetermined(s', a, w1, k, w2, d);
    var m' := ScanMain(s').value;
    LexemeInjective(m'.amount, m.amount);
    assert m' == m;
  }

  /** Where the parts of `<x> <y><z>` sit. */
  lemma SpaceJoined(x: string, y: string, z: string)
    ensures var s := x + (" " + (y + z));
      && s[..|x|] == x
      && s[|x|..|x| + 1] == " "
      && s[|x| + 1..|x| + 1 + |y|] == y
      && s[|x| + 1 + |y|..] == z
  {
    var s := x + (" " + (y + z));
    assert s[|x|..] == " " + (y + z);
    assert s[|x| + 1..] == y + z;
    assert s[|x| + 1..|x| + 1 + |y|] == (y + z)[..|y|];
  }

  /** `<amount> <keyword> <desc>.` at the start of `s`, for a well-formed
      amount, an accepted keyword and a description without a period. */
  ghost predicate CommandLayout(s: string, amount: Decimal, keyword: string, desc: string) {
    var a := |amount.Lexeme()|;
    var k := a + 1 + |keyword|;
    var d := k + 1 + |desc|;
    && amount.Valid()
    && (keyword == "on" || keyword == "for")
    && |desc| > 0 && '.' !in desc
    && d < |s|
    && s[..a] == amount.Lexeme() && s[a..a + 1] == " "
    && s[a + 1..k] == keyword && s[k..k + 1] == " "
    && s[k + 1..d] == desc && s[d] == '.'
  }

  /** The main pattern matches `s` with `amount` in the amount group and
      `desc` in the description group. */
  ghost predicate MatchesWithGroups(s: string, amount: Decimal, desc: string) {
    && amount.Valid()
    && exists a: nat, w1: nat, k: nat, w2: nat, d: nat ::
         MainMatchAt(s, a, w1, k, w2, d) && s[..a] == amount.Lexeme() && s[w2..d] == desc
  }

  /** Such a layout is a match of the main pattern with that amount and
      description. */
  lemma LayoutMatches(s: string, amount: Decimal, keyword: string, desc: string)
    requires CommandLayout(s, amount, keyword, desc)
    ensures MatchesWithGroups(s, amount, desc)
  {
    var a := |amount.Lexeme()|;
    var k := a + 1 + |keyword|;
    var d := k + 1 + |desc|;
    LexemeMatchesAmountGroup(amount);
    assert '.' !in s[k + 1..d] by {
      var t := s[k + 1..d];
      assert t == desc;
    }
    assert MainMatchAt(s, a, a + 1, k, k + 1, d);
  }

  /** `ScanMain` on a text whose main match has a known amount and
      description group. */
  lemma ScanFromGroups(s: string, amount: Decimal, desc: string)
    requires MatchesWithGroups(s, amount, desc)
    ensures ScanMain(s).Some? && ScanMain(s).value.amount == amount
    ensures ScanMain(s).value.description == Strip(desc)
  {
    var a: nat, w1: nat, k: nat, w2: nat, d: nat :|
      MainMatchAt(s, a, w1, k, w2, d) && s[..a] == amount.Lexeme() && s[w2..d] == desc;
    MainMatchDetermined(s, a, w1, k, w2, d);
    LexemeInjective(ScanMain(s).value.amount, amount);
  }

  /** The parser's record carries what the main scanner found. */
  lemma ParseCarriesMainMatch(message: string, today: Calendar.Date)
    requires today.Valid()
    ensures ParseMessage(message, today).Success? <==> ScanMain(message).Some?
    ensures ScanMain(message).Some? ==>
      && ParseMessage(message, today).value.amount == ScanMain(message).value.amount
      && ParseMessage(message, today).value.description == ScanMain(message).value.description
      && ParseMessage(message, today).value.note == FindNote(message, 0)
  {
  }

  /** The command `<amount> <keyword> <desc>.<rest>` matches the main
      pattern with that amount and description. */
  lemma CommandMatches(amount: Decimal, keyword: string, desc: string, rest: string)
    requires amount.Valid()
    requires keyword == "on" || keyword == "for"
    requires |desc| > 0 && '.' !in desc
    ensures MatchesWithGroups(amount.Lexeme() + (" " + (keyword + (" " + (desc + ("." + rest))))), amount, desc)
  {
    var lex := amount.Lexeme();
    var u := " " + (desc + ("." + rest));
    var s := lex + (" " + (keyword + u));
    var a := |lex|;
    var k := a + 1 + |keyword|;
    SpaceJoined(lex, keyword, u);
    assert s[k..] == u;
    assert s[k..][..1] == " " && s[k..][1..1 + |desc|] == desc && s[k..][1 + |desc|] == '.';
    LayoutMatches(s, amount, keyword, desc);
  }

  /** The command `<amount> <keyword> <desc>.<rest>` is scanned to its
      amount and stripped description. */
  lemma ScanWellFormedCommand(amount: Decimal, keyword: string, desc: string, rest: string)
    requires amount.Valid()
    requires keyword == "on" || keyword == "for"
    requires |desc| > 0 && '.' !in desc
    ensures var s := amount.Lexeme() + (" " + (keyword + (" " + (desc + ("." + rest)))));
      && ScanMain(s).Some?
      && ScanMain(s).value.amount == amount
      && ScanMain(s).value.description == Strip(desc)
  {
    CommandMatches(amount, keyword, desc, rest);
    ScanFromGroups(amount.Lexeme() + (" " + (keyword + (" " + (desc + ("." + rest))))), amount, desc);
  }

  /** The command text read from the right. */
  lemma CommandRegrouped(lex: string, keyword: string, desc: string, rest: string)
    ensures lex + " " + keyword + " " + desc + "." + rest == lex + (" " + (keyword + (" " + (desc + ("." + rest)))))
  {
  }

  /** A command written in the documented form
      `<amount> on|for <description>.<anything>` parses to that amount and
      the stripped description. */
  lemma ParseWellFormedCommand(amount: Decimal, keyword: string, desc: string, rest: string, today: Calendar.Date)
    requires amount.Valid() && today.Valid()
    requires keyword == "on" || keyword == "for"
    requires |desc| > 0 && '.' !in desc
    ensures var r := ParseMessage(amount.Lexeme() + " " + keyword + " " + desc + "." + rest, today);
      && r.Success?
      && r.value.amount == amount
      && r.value.description == Strip(desc)
  {
    var s := amount.Lexeme() + " " + keyword + " " + desc + "." + rest;
    CommandRegrouped(amount.Lexeme(), keyword, desc, rest);
    ScanWellFormedCommand(amount, keyword, desc, rest);
    ParseCarriesMainMatch(s, today);
  }
}
