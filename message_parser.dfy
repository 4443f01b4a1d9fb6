/**
 The command parser of the bot (`MatrixBot._parse_message`): it turns text
 such as `12.50 on coffee. Note: with Bob.` into a withdrawal record, or
 rejects it with `ValueError("Message format is invalid")`.

 The two regular expressions of the source are written out as scanners:
   main pattern  `(?P<amount>\d+(?:\.\d+)?)\s+(?:on|for)\s+(?P<description>[^.]+)\.`
                 matched at position 0 (`re.match`);
   note pattern  `[Nn]ote:\s*(?P<note>[^.]+)\.` searched anywhere (`re.search`).
 Module MessagePattern proves that the scanners accept exactly the texts the
 expressions match and capture what they capture (after `strip()`).
 */
module MessageParser {
  import opened Wrappers
  import opened Text
  import Calendar

  /** An amount lexeme `\d+(\.\d+)?`: the integer digits and the fraction
      digits (empty when there is no fractional part). */
  datatype Decimal = Decimal(whole: string, fraction: string) {
    predicate Valid() {
      |whole| > 0 && AllDigits(whole) && AllDigits(fraction)
    }

    /** The text the amount was read from. */
    function Lexeme(): string {
      if fraction == [] then whole else whole + "." + fraction
    }

    /** The exact value of the lexeme, which `float()` rounds to a double. */
    function Value(): (v: real)
      requires Valid()
      ensures v >= 0.0
    {
      DigitsValue(whole) as real + DigitsValue(fraction) as real / Pow10(|fraction|) as real
    }
  }

  /** The record `_parse_message` returns; the dictionary keys are `type`,
      `amount`, `description`, `date`, `source_name`, `tags` and `note`
      (always present, `None` when no note was found). */
  datatype Transaction = Transaction(
    kind: string,
    amount: Decimal,
    description: string,
    date: string,
    sourceName: string,
    tags: seq<string>,
    note: Option<string>)

  const InvalidFormat: string := "Message format is invalid"

  /** What the main pattern yields: the amount, the stripped description and
      the index just past the terminating period. */
  datatype MainMatch = MainMatch(amount: Decimal, description: string, end: nat)

  /** The end of the keyword `on` or `for` starting at `i`, if there is one. */
  function KeywordEnd(s: string, i: nat): (r: Option<nat>)
    requires i <= |s|
    ensures r.Some? ==> i <= r.value <= |s| && (s[i..r.value] == "on" || s[i..r.value] == "for")
  {
    if i + 2 <= |s| && s[i..i + 2] == "on" then Some(i + 2)
    else if i + 3 <= |s| && s[i..i + 3] == "for" then Some(i + 3)
    else None
  }

  /** The amount group `\d+(?:\.\d+)?` at the start of `s`, when whitespace
      follows it: the longest digit run, extended by `.` and a further digit
      run when there is one. Only whitespace may follow, and neither a digit
      nor `.` is whitespace, so backtracking cannot shorten the lexeme. Yields
      the amount and the index just past it. */
  function ScanAmount(s: string): (r: Option<(Decimal, nat)>)
    ensures r.Some? ==> r.value.0.Valid() && 0 < r.value.1 <= |s|
    ensures r.Some? ==> s[..r.value.1] == r.value.0.Lexeme() && IsDigit(s[0])
  {
    var a1 := Span(s, 0, IsDigit);
    if a1 == 0 then None
    else if a1 + 1 < |s| && s[a1] == '.' && Span(s, a1 + 1, IsDigit) > a1 + 1 then
      var a := Span(s, a1 + 1, IsDigit);
      assert s[..a] == s[..a1] + "." + s[a1 + 1..a];
      Some((Decimal(s[..a1], s[a1 + 1..a]), a))
    else Some((Decimal(s[..a1], ""), a1))
  }

  /** `\s+(?P<description>[^.]+)\.` from index `k`, just past the keyword.
      The description runs from the whitespace to the first period; `\s+`
      may give back whitespace to `[^.]+`, so at least one character must
      follow the first whitespace character. Yields the stripped description
      and the index just past the period. */
  function ScanDescription(s: string, k: nat): (r: Option<(string, nat)>)
    requires k <= |s|
    ensures r.Some? ==> '.' !in r.value.0
    ensures r.Some? ==> k < r.value.1 <= |s| && s[r.value.1 - 1] == '.'
    ensures r.Some? ==> '.' !in s[k..r.value.1 - 1] && r.value.0 == Strip(s[k..r.value.1 - 1])
  {
    if k == |s| || !IsSpace(s[k]) then None
    else match IndexOf(s, '.', k)
      case None => None
      case Some(p) =>
        if p < k + 2 then None
        else
          StripKeeps(s[k..p], '.');
          Some((Strip(s[k..p]), p + 1))
  }

  /** The rest of the main pattern from index `a`, just past the amount:
      `\s+(?:on|for)` and then the description. */
  function ScanClause(s: string, a: nat): (r: Option<(string, nat)>)
    requires a <= |s|
    ensures r.Some? ==> '.' !in r.value.0
    ensures r.Some? ==> a < r.value.1 <= |s| && s[r.value.1 - 1] == '.'
  {
    var w1 := Span(s, a, IsSpace);
    if w1 == a then None
    else match KeywordEnd(s, w1)
      case None => None
      case Some(k) => ScanDescription(s, k)
  }

  /** The main pattern, matched at the start of `s` (`re.match`). */
  function ScanMain(s: string): (r: Option<MainMatch>)
    ensures r.Some? ==> |s| > 0 && IsDigit(s[0])
    ensures r.Some? ==> r.value.amount.Valid()
    ensures r.Some? ==> '.' !in r.value.description
    ensures r.Some? ==> 0 < r.value.end <= |s| && s[r.value.end - 1] == '.'
  {
    var amount := ScanAmount(s);
    if amount.None? then None
    else
      var clause := ScanClause(s, amount.value.1);
      if clause.None? then None
      else Some(MainMatch(amount.value.0, clause.value.0, clause.value.1))
  }

  /** `[Nn]ote:` starts at `i`. */
  predicate NoteKeywordAt(s: string, i: nat)
    ensures NoteKeywordAt(s, i) <==> i + 5 <= |s| && (s[i..i + 5] == "Note:" || s[i..i + 5] == "note:")
  {
    i + 5 <= |s| && (s[i] == 'N' || s[i] == 'n') && s[i + 1..i + 5] == "ote:"
  }

  /** The stripped note if the note pattern matches at `i`: the keyword, then
      at least one character before the next period (`\s*` may give back its
      whitespace to `[^.]+`). */
  function NoteAt(s: string, i: nat): (r: Option<string>)
    ensures r.Some? ==> NoteKeywordAt(s, i) && '.' !in r.value
  {
    if !NoteKeywordAt(s, i) then None
    else match IndexOf(s, '.', i + 5)
      case None => None
      case Some(p) =>
        if p == i + 5 then None
        else
          StripKeeps(s[i + 5..p], '.');
          Some(Strip(s[i + 5..p]))
  }

  /** `re.search` for the note pattern from position `i` on: the note at the
      leftmost position where the pattern matches. */
  function FindNote(s: string, i: nat): (r: Option<string>)
    requires i <= |s|
    ensures r.Some? ==> '.' !in r.value
    decreases |s| - i
  {
    if i == |s| then None
    else match NoteAt(s, i)
      case Some(n) => Some(n)
      case None => FindNote(s, i + 1)
  }

  /** `_parse_message(message)` with `datetime.now()` replaced by `today`. */
  function ParseMessage(message: string, today: Calendar.Date): (r: Result<Transaction, string>)
    requires today.Valid()
    ensures r.Failure? ==> r.error == InvalidFormat
    ensures r.Success? ==> |message| > 0 && IsDigit(message[0])
    ensures r.Success? ==>
      && r.value.kind == "withdrawal"
      && r.value.sourceName == "Cash wallet"
      && r.value.tags == ["matrix_bot"]
      && Calendar.ParseIso(r.value.date) == Some(today)
      && r.value.amount.Valid()
      && r.value.amount.Value() >= 0.0
      && '.' !in r.value.description
      && (r.value.note.Some? ==> '.' !in r.value.note.value)
  {
    match ScanMain(message)
    case None => Failure(InvalidFormat)
    case Some(m) =>
      Calendar.FormatRoundTrip(today);
      Success(Transaction(
        kind := "withdrawal",
        amount := m.amount,
        description := m.description,
        date := Calendar.Format(today),
        sourceName := "Cash wallet",
        tags := ["matrix_bot"],
        note := FindNote(message, 0)))
  }
}
