/**
 Worked messages for the command parser: two sample commands and the
 shapes it must turn down. Each example follows from
 the general lemmas of MessagePattern and a few facts about the note search
 proved here.
 */
module ParserExamples {
  import opened Wrappers
  import opened Text
  import opened MessageParser
  import opened MessagePattern
  import Calendar

  /** The note keyword ends in a colon, so no keyword starts where the colon
      would fall in a colon-free stretch. */
  lemma ColonFreeHasNoKeyword(s: string, i: nat, j: nat)
    requires i <= j <= |s| && ':' !in s[i..j]
    ensures forall m: nat | i <= m && m + 4 < j :: !NoteKeywordAt(s, m)
  {
    forall m: nat | i <= m && m + 4 < j
      ensures !NoteKeywordAt(s, m)
    {
      assert s[i..j][m + 4 - i] == s[m + 4];
    }
  }

  /** The note search walks over positions where no keyword starts. */
  lemma {:induction false} FindNoteSkips(s: string, i: nat, j: nat)
    requires i <= j <= |s|
    requires forall m: nat | i <= m < j :: !NoteKeywordAt(s, m)
    ensures FindNote(s, i) == FindNote(s, j)
    decreases j - i
  {
    if i < j {
      assert NoteAt(s, i) == None;
      FindNoteSkips(s, i + 1, j);
    }
  }

  /** A message without a colon carries no note. */
  lemma {:induction false} NoColonNoNote(s: string)
    requires ':' !in s
    ensures FindNote(s, 0) == None
  {
    assert s[0..|s|] == s;
    ColonFreeHasNoKeyword(s, 0, |s|);
    FindNoteSkips(s, 0, |s|);
  }

  /** A successful parse is the record built from the main match and the
      note search. */
  lemma ParseRecord(message: string, today: Calendar.Date, amount: Decimal, description: string, note: Option<string>)
    requires today.Valid()
    requires ParseMessage(message, today).Success?
    requires ParseMessage(message, today).value.amount == amount
    requires ParseMessage(message, today).value.description == description
    requires FindNote(message, 0) == note
    ensures ParseMessage(message, today) == Success(Transaction(
      kind := "withdrawal",
      amount := amount,
      description := description,
      date := Calendar.Format(today),
      sourceName := "Cash wallet",
      tags := ["matrix_bot"],
      note := note))
  {
  }

  lemma CoffeeSpelled()
    ensures "12.50 on coffee." == Decimal("12", "50").Lexeme() + " " + "on" + " " + "coffee" + "." + ""
  {
  }

  lemma CoffeeText()
    ensures Strip("coffee") == "coffee"
    ensures FindNote("12.50 on coffee.", 0) == None
  {
    StripTrimmed("coffee");
    NoColonNoNote("12.50 on coffee.");
  }

  lemma CoffeeMain(today: Calendar.Date)
    requires today.Valid()
    ensures var r := ParseMessage("12.50 on coffee.", today);
      r.Success? && r.value.amount == Decimal("12", "50") && r.value.description == "coffee"
  {
    CoffeeSpelled();
    CoffeeText();
    ParseWellFormedCommand(Decimal("12", "50"), "on", "coffee", "", today);
  }

  /** `12.50 on coffee.` is a withdrawal of 12.50 for "coffee" with no note. */
  lemma CoffeeExample(today: Calendar.Date)
    requires today.Valid()
    ensures ParseMessage("12.50 on coffee.", today) == Success(Transaction(
      kind := "withdrawal",
      amount := Decimal("12", "50"),
      description := "coffee",
      date := Calendar.Format(today),
      sourceName := "Cash wallet",
      tags := ["matrix_bot"],
      note := None))
  {
    CoffeeMain(today);
    CoffeeText();
    ParseRecord("12.50 on coffee.", today, Decimal("12", "50"), "coffee", None);
  }

  /** When the first colon of a message ends a note keyword, the note is the
      stripped text from that colon to the next period. */
  lemma NoteAtFirstColon(s: string, j: nat, p: nat)
    requires NoteKeywordAt(s, j) && ':' !in s[0..j + 4]
    requires j + 5 < p < |s| && s[p] == '.' && '.' !in s[j + 5..p]
    ensures FindNote(s, 0) == Some(Strip(s[j + 5..p]))
  {
    ColonFreeHasNoKeyword(s, 0, j + 4);
    FindNoteSkips(s, 0, j);
    FirstOccurrence(s, '.', j + 5, p);
  }

  lemma LexemeHasNoColon(amount: Decimal)
    requires amount.Valid()
    ensures ':' !in amount.Lexeme()
  {
    var t := amount.Lexeme();
    forall m | 0 <= m < |t| ensures t[m] != ':' {
      if amount.fraction != [] && m > |amount.whole| {
        assert t[m] == amount.fraction[m - |amount.whole| - 1];
      }
    }
  }

  lemma CommandHeadHasNoColon(amount: Decimal, keyword: string, desc: string)
    requires amount.Valid() && (keyword == "on" || keyword == "for") && ':' !in desc
    ensures ':' !in amount.Lexeme() + " " + keyword + " " + desc
  {
    LexemeHasNoColon(amount);
    assert ':' !in keyword;
  }

  /** A text with no colon, then `. Note: <text>.`: the note is the stripped
      text. */
  lemma TrailingNote(head: string, note: string)
    requires ':' !in head && '.' !in note
    ensures FindNote(head + ". Note: " + note + ".", 0) == Some(Strip(note))
  {
    var s := head + ". Note: " + note + ".";
    var j := |head| + 2;
    assert s[0..j + 4] == head + ". Note";
    assert NoteKeywordAt(s, j) by {
      assert s[j..j + 5] == "Note:";
    }
    assert s[j + 5..|s| - 1] == " " + note;
    NoteAtFirstColon(s, j, |s| - 1);
    StripSpacePrefix(" ", note);
  }

  /** A command followed by ` Note: <text>.` carries the stripped text as its
      note, provided the description holds no colon. */
  lemma ParseCommandWithNote(amount: Decimal, keyword: string, desc: string, note: string, today: Calendar.Date)
    requires amount.Valid() && today.Valid()
    requires keyword == "on" || keyword == "for"
    requires |desc| > 0 && '.' !in desc && ':' !in desc
    requires '.' !in note
    ensures var r := ParseMessage(amount.Lexeme() + " " + keyword + " " + desc + ". Note: " + note + ".", today);
      && r.Success?
      && r.value.amount == amount
      && r.value.description == Strip(desc)
      && r.value.note == Some(Strip(note))
  {
    var head := amount.Lexeme() + " " + keyword + " " + desc;
    var s := head + ". Note: " + note + ".";
    NoteCommandSpelled(amount.Lexeme(), keyword, desc, note);
    ParseWellFormedCommand(amount, keyword, desc, " Note: " + note + ".", today);
    CommandHeadHasNoColon(amount, keyword, desc);
    TrailingNote(head, note);
    ParseCarriesMainMatch(s, today);
  }

  lemma NoteCommandSpelled(l: string, keyword: string, desc: string, note: string)
    ensures l + " " + keyword + " " + desc + ". Note: " + note + "."
         == l + " " + keyword + " " + desc + "." + (" Note: " + note + ".")
  {
  }

  /** The note is searched for in the whole message, description included:
      in `5 for Note: deposit.` or `5 on Footnote: deposit.` the description
      keeps the keyword and the note is `deposit` as well. */
  lemma NoteInsideDescription(amount: Decimal, keyword: string, w: string, c: char, x: string,
                              rest: string, today: Calendar.Date)
    requires amount.Valid() && today.Valid()
    requires keyword == "on" || keyword == "for"
    requires c == 'N' || c == 'n'
    requires ':' !in w && '.' !in w && '.' !in x
    ensures var desc := w + [c] + "ote: " + x;
      var r := ParseMessage(amount.Lexeme() + " " + keyword + " " + desc + "." + rest, today);
      && r.Success?
      && r.value.amount == amount
      && r.value.description == Strip(desc)
      && r.value.note == Some(Strip(x))
  {
    var desc := w + [c] + "ote: " + x;
    var head := amount.Lexeme() + " " + keyword + " " + w;
    NoteDescriptionHasNoPeriod(w, c, x);
    ParseWellFormedCommand(amount, keyword, desc, rest, today);
    CommandHeadHasNoColon(amount, keyword, w);
    DescriptionNote(head, c, x, rest);
    NoteDescriptionSpelled(amount.Lexeme(), keyword, w, c, x, rest);
    ParseCarriesMainMatch(amount.Lexeme() + " " + keyword + " " + desc + "." + rest, today);
  }

  lemma NoteDescriptionHasNoPeriod(w: string, c: char, x: string)
    requires '.' !in w && '.' !in x && c != '.'
    ensures |w + [c] + "ote: " + x| > 0 && '.' !in w + [c] + "ote: " + x
  {
  }

  lemma NoteDescriptionSpelled(l: string, keyword: string, w: string, c: char, x: string, rest: string)
    ensures l + " " + keyword + " " + (w + [c] + "ote: " + x) + "." + rest
         == (l + " " + keyword + " " + w) + [c] + "ote: " + x + "." + rest
  {
  }

  lemma DescriptionNote(head: string, c: char, x: string, rest: string)
    requires ':' !in head && (c == 'N' || c == 'n') && '.' !in x
    ensures FindNote(head + [c] + "ote: " + x + "." + rest, 0) == Some(Strip(x))
  {
    var s := head + [c] + "ote: " + x + "." + rest;
    var j := |head|;
    var p := j + 6 + |x|;
    assert s[0..j + 4] == head + [c] + "ote";
    assert NoteKeywordAt(s, j) by {
      assert s[j] == c && s[j + 1..j + 5] == "ote:";
    }
    assert s[j + 5..p] == " " + x && s[p] == '.';
    NoteAtFirstColon(s, j, p);
    StripSpacePrefix(" ", x);
  }

  /** A zero amount is accepted (`0 on x.`): the pattern asks for digits,
      not for a positive value. */
  lemma ZeroAmountAccepted(keyword: string, desc: string, rest: string, today: Calendar.Date)
    requires today.Valid()
    requires keyword == "on" || keyword == "for"
    requires |desc| > 0 && '.' !in desc
    ensures var r := ParseMessage("0" + " " + keyword + " " + desc + "." + rest, today);
      r.Success? && r.value.amount.Value() == 0.0
  {
    ZeroValue();
    ParseWellFormedCommand(Decimal("0", ""), keyword, desc, rest, today);
  }

  lemma ZeroValue()
    ensures Decimal("0", "").Valid() && Decimal("0", "").Lexeme() == "0"
    ensures Decimal("0", "").Value() == 0.0
  {
    assert "0"[..0] == [];
  }

  /** A description of whitespace only is accepted and comes out empty
      (`5 on  .`): `[^.]+` takes whitespace and `strip()` removes it. */
  lemma BlankDescriptionAccepted(amount: Decimal, keyword: string, blank: string, rest: string, today: Calendar.Date)
    requires amount.Valid() && today.Valid()
    requires keyword == "on" || keyword == "for"
    requires |blank| > 0 && AllSpace(blank)
    ensures var r := ParseMessage(amount.Lexeme() + " " + keyword + " " + blank + "." + rest, today);
      r.Success? && r.value.amount == amount && r.value.description == ""
  {
    assert '.' !in blank by {
      forall m | 0 <= m < |blank| ensures blank[m] != '.' {
        assert IsSpace(blank[m]);
      }
    }
    ParseWellFormedCommand(amount, keyword, blank, rest, today);
    StripSpacePrefix(blank, []);
    assert blank + [] == blank;
  }

  /** Likewise a note of whitespace only comes out as the empty note
      (`Note: .`). */
  lemma BlankNoteAccepted(amount: Decimal, keyword: string, desc: string, blank: string, today: Calendar.Date)
    requires amount.Valid() && today.Valid()
    requires keyword == "on" || keyword == "for"
    requires |desc| > 0 && '.' !in desc && ':' !in desc
    requires AllSpace(blank)
    ensures var r := ParseMessage(amount.Lexeme() + " " + keyword + " " + desc + ". Note: " + blank + ".", today);
      r.Success? && r.value.note == Some("")
  {
    assert '.' !in blank by {
      forall m | 0 <= m < |blank| ensures blank[m] != '.' {
        assert IsSpace(blank[m]);
      }
    }
    ParseCommandWithNote(amount, keyword, desc, blank, today);
    StripSpacePrefix(blank, []);
    assert blank + [] == blank;
  }

  lemma RentSpelled()
    ensures "20 for rent. Note: march payment." ==
      Decimal("20", "").Lexeme() + " " + "for" + " " + "rent" + ". Note: " + "march payment" + "."
  {
  }

  lemma RentText()
    ensures Strip("rent") == "rent"
    ensures Strip("march payment") == "march payment"
  {
    StripTrimmed("rent");
    StripTrimmed("march payment");
  }

  /** `20 for rent. Note: march payment.` is a withdrawal of 20 for "rent"
      with the note "march payment". */
  lemma RentExample(today: Calendar.Date)
    requires today.Valid()
    ensures ParseMessage("20 for rent. Note: march payment.", today) == Success(Transaction(
      kind := "withdrawal",
      amount := Decimal("20", ""),
      description := "rent",
      date := Calendar.Format(today),
      sourceName := "Cash wallet",
      tags := ["matrix_bot"],
      note := Some("march payment")))
  {
    RentSpelled();
    RentText();
    ParseCommandWithNote(Decimal("20", ""), "for", "rent", "march payment", today);
    ParseRecord("20 for rent. Note: march payment.", today, Decimal("20", ""), "rent", Some("march payment"));
  }

  // ---------------------------------------------------------------------
  // Texts the parser turns down

  /** Leading whitespace, a sign or any other non-digit first character
      (`-5 on refund.`, ` 12 on x.`) is rejected: the pattern is anchored at
      the first character. */
  lemma LeadingNonDigitRejected(message: string, today: Calendar.Date)
    requires today.Valid()
    requires message == [] || !IsDigit(message[0])
    ensures ParseMessage(message, today) == Failure(InvalidFormat)
  {
  }

  /** A period right after the integer digits that no digit follows
      (`12. on x.`) is rejected: `\.\d+` needs a digit, and the period is
      not whitespace. */
  lemma PeriodWithoutFractionRejected(whole: string, rest: string, today: Calendar.Date)
    requires |whole| > 0 && AllDigits(whole) && today.Valid()
    requires rest == [] || !IsDigit(rest[0])
    ensures ParseMessage(whole + "." + rest, today) == Failure(InvalidFormat)
  {
    var s := whole + "." + rest;
    var n := |whole|;
    assert ScanAmount(s) == Some((Decimal(whole, ""), n)) by {
      assert s[..n] == whole && s[n] == '.';
      forall j | 0 <= j < n ensures IsDigit(s[j]) {
        assert s[j] == whole[j];
      }
      SpanStops(s, 0, n, IsDigit);
      assert n + 1 == |s| || s[n + 1] == rest[0];
      SpanStops(s, n + 1, n + 1, IsDigit);
    }
    assert ScanClause(s, n) == None by {
      SpanStops(s, n, n, IsSpace);
    }
  }

  /** No keyword starts at a character other than `o` or `f`. */
  lemma KeywordAbsent(s: string, i: nat)
    requires i < |s| && s[i] != 'o' && s[i] != 'f'
    ensures KeywordEnd(s, i) == None
  {
    if i + 2 <= |s| {
      assert s[i..i + 2][0] == s[i];
    }
    if i + 3 <= |s| {
      assert s[i..i + 3][0] == s[i];
    }
  }

  /** An amount, whitespace up to `w1` and no keyword at `w1`: the message
      is rejected. */
  lemma NoKeywordAfterAmount(s: string, amount: Decimal, w1: nat, today: Calendar.Date)
    requires amount.Valid() && today.Valid()
    requires |amount.Lexeme()| < w1 <= |s| && s[..|amount.Lexeme()|] == amount.Lexeme()
    requires forall j | |amount.Lexeme()| <= j < w1 :: IsSpace(s[j])
    requires w1 == |s| || (!IsSpace(s[w1]) && KeywordEnd(s, w1) == None)
    ensures ParseMessage(s, today) == Failure(InvalidFormat)
  {
    var n := |amount.Lexeme()|;
    assert AllSpace(s[n..w1]) by {
      forall j | 0 <= j < w1 - n ensures IsSpace(s[n..w1][j]) {
        assert s[n..w1][j] == s[n + j];
      }
    }
    LexemeMatchesAmountGroup(amount);
    AmountDetermined(s, n, w1);
    SpanStops(s, n, w1, IsSpace);
  }

  /** The keyword is case-sensitive: `12 On x.` is rejected. */
  lemma CapitalisedKeywordRejected(amount: Decimal, rest: string, today: Calendar.Date)
    requires amount.Valid() && today.Valid()
    ensures ParseMessage(amount.Lexeme() + " On" + rest, today) == Failure(InvalidFormat)
  {
    var s := amount.Lexeme() + " On" + rest;
    var n := |amount.Lexeme()|;
    assert s[..n] == amount.Lexeme() && s[n] == ' ' && s[n + 1] == 'O';
    KeywordAbsent(s, n + 1);
    NoKeywordAfterAmount(s, amount, n + 1, today);
  }

  /** The keyword must be followed by whitespace: `12 onion.` and
      `12 format.` are rejected. */
  lemma KeywordGluedToWordRejected(amount: Decimal, keyword: string, rest: string, today: Calendar.Date)
    requires amount.Valid() && today.Valid()
    requires keyword == "on" || keyword == "for"
    requires rest == [] || !IsSpace(rest[0])
    ensures ParseMessage(amount.Lexeme() + " " + keyword + rest, today) == Failure(InvalidFormat)
  {
    var s := amount.Lexeme() + " " + keyword + rest;
    var n := |amount.Lexeme()|;
    var k := n + 1 + |keyword|;
    assert s[..n] == amount.Lexeme() && s[n] == ' ' && s[n + 1..k] == keyword;
    assert k == |s| || s[k] == rest[0];
    KeywordDetermined(s, n + 1, k);
    KeywordNeedsSpace(s, amount, n + 1, k, today);
  }

  /** An amount, whitespace up to `w1`, a keyword up to `k` and no whitespace
      at `k`: the message is rejected. */
  lemma KeywordNeedsSpace(s: string, amount: Decimal, w1: nat, k: nat, today: Calendar.Date)
    requires amount.Valid() && today.Valid()
    requires |amount.Lexeme()| < w1 < k <= |s| && s[..|amount.Lexeme()|] == amount.Lexeme()
    requires forall j | |amount.Lexeme()| <= j < w1 :: IsSpace(s[j])
    requires !IsSpace(s[w1]) && KeywordEnd(s, w1) == Some(k)
    requires k == |s| || !IsSpace(s[k])
    ensures ParseMessage(s, today) == Failure(InvalidFormat)
  {
    var n := |amount.Lexeme()|;
    assert AllSpace(s[n..w1]) by {
      forall j | 0 <= j < w1 - n ensures IsSpace(s[n..w1][j]) {
        assert s[n..w1][j] == s[n + j];
      }
    }
    LexemeMatchesAmountGroup(amount);
    AmountDetermined(s, n, w1);
    SpanStops(s, n, w1, IsSpace);
  }
}
