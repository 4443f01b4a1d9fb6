# matrix_to_firefly_iii_bot: the command handling, in Dafny

The bot listens in a Matrix room for messages such as
`$spend 12.50 on coffee. Note: with Bob.`. It turns the arguments into a
withdrawal record and posts the record to a Firefly III server. It then
acknowledges the message with a reaction: a check mark or a cross. This
project models the deterministic part of that work and proves what it does:

- `MatrixBot._parse_message` (module `MessageParser`). Its two regular
  expressions are written as explicit scanners over strings:
  - the main pattern, matched at the start of the text;
  - the note pattern, searched anywhere in the text.

  The current day is a parameter. Module `MessagePattern` states what the
  expressions match, directly over positions in the text. It proves that the
  scanners accept exactly those texts and capture what the expressions
  capture, and that every way the regex engine may match gives the same
  record. Module `ParserExamples` works through two sample commands and
  the inputs the parser turns down.
- `MatrixBot.create_transaction` (module `Ledger`): the request it builds, and
  how the server's answer becomes `True`, `False` or an exception. The HTTP
  transport is a function parameter, so every property holds for every
  server.
- The `spend` listener (module `SpendListener`). It is a method with the
  source's early returns and its `is_processed` flag, proved equal to a
  specification function. The lemmas about that function say which reaction
  is sent when.
- `ConfigReader.get` (module `Config`). It is a class whose `Get` method
  walks the key path with a loop, as the source does. It is proved equal to
  a recursive walk, and the lemmas describe what that walk returns or raises.
  The reader's two fields are `const`, so no call can change the loaded
  document.

Modules `Wrappers` (`Option`, `Result`), `Text` (Python's whitespace set,
`strip`, `join`, `split`, substring search) and `Calendar` (`%Y-%m-%d` and its
inverse) supply the pieces the core needs.

Three behaviours of the code a reader may not expect; the model follows the
code:
- A zero amount is accepted (`0 on x.`). The pattern asks for digits, not for
  a positive value.
- A description or note that is empty after `strip()` is accepted. An
  example is `5 on  .`.
- The listener's gate returns early only when both `prefix()` and
  `command("spend")` are false. A message with the prefix but another command
  therefore reaches the parser.

## Model

| member | source | states |
|---|---|---|
| MessageParser.Decimal.Value | matrix_bot.py:106 | the value of an amount lexeme is never negative (no sign is accepted) |
| MessageParser.KeywordEnd | matrix_bot.py:95 | a keyword found at `i` is exactly `on` or `for`, case-sensitive |
| MessageParser.ScanAmount | matrix_bot.py:95 | a scanned amount is well formed, is the text it was read from, and starts with a digit |
| MessageParser.ScanDescription | matrix_bot.py:95-107 | the match ends at the first period after the whitespace, and the description is the stripped, period-free text before it |
| MessageParser.ScanClause | matrix_bot.py:95 | the part after the amount ends at a period, and its description holds no period |
| MessageParser.ScanMain | matrix_bot.py:95-98 | a main match starts with a digit, has a well-formed amount and a period-free description, and ends at a period |
| MessageParser.NoteAt | matrix_bot.py:114-120 | a note is reported only where `Note:`/`note:` starts, and it holds no period |
| MessageParser.NoteKeywordAt | matrix_bot.py:114 | the keyword of the note pattern starts at `i` if and only if the five characters there are `Note:` or `note:` |
| MessageParser.FindNote | matrix_bot.py:117-120 | a found note holds no period |
| MessageParser.ParseMessage | matrix_bot.py:83-122 | failure is always `Message format is invalid`; a record is a withdrawal from "Cash wallet" tagged `matrix_bot`, dated with the given day, with a non-negative amount and period-free description and note |
| MessagePattern.LexemeMatchesAmountGroup | matrix_bot.py:95 | every well-formed amount prints as a text the amount group matches |
| MessagePattern.LexemeInjective | matrix_bot.py:95-106 | two well-formed amounts with the same text are the same amount |
| MessagePattern.AmountDetermined | matrix_bot.py:95 | any amount group followed by whitespace is the one the scanner reads, so backtracking cannot change it |
| MessagePattern.KeywordDetermined | matrix_bot.py:95 | the keyword scanner finds `on`/`for` wherever the pattern has it |
| MessagePattern.DescriptionDetermined | matrix_bot.py:95-107 | every split of whitespace and description group gives the same stripped description, ending at the first period |
| MessagePattern.ClauseDetermined | matrix_bot.py:95-107 | every match of the part after the amount gives the scanner's description and end |
| MessagePattern.MainMatchDetermined | matrix_bot.py:95-98 | every match of the main pattern gives the scanner's amount text, stripped description and end |
| MessagePattern.ScanMainWitness | matrix_bot.py:95-98 | when the scanner succeeds, the main pattern matches at position 0 |
| MessagePattern.MainScannerIsPattern | matrix_bot.py:95-101 | the scanner succeeds if and only if `re.match` of the main pattern succeeds, and then agrees with every match |
| MessagePattern.NoteCaptureDetermined | matrix_bot.py:114-120 | any match of the note pattern at `i` yields the stripped note group |
| MessagePattern.NoteAtIsPattern | matrix_bot.py:114 | the note scanner succeeds at `i` if and only if the note pattern matches at `i` |
| MessagePattern.FindNoteNone | matrix_bot.py:117-120 | no note is found if and only if the note pattern matches nowhere from `i` on |
| MessagePattern.FindNoteLeftmost | matrix_bot.py:117-120 | the note found is the capture of the leftmost match (`re.search`) |
| MessagePattern.ParseMessageIsPatternMatch | matrix_bot.py:95-120 | parsing succeeds if and only if the main pattern matches at position 0; amount and description agree with every match; the note is `None` exactly when the note pattern matches nowhere, and otherwise it is the leftmost match's stripped group |
| MessagePattern.MainMatchIgnoresTail | matrix_bot.py:95-98 | a main match looks only at the text up to its period |
| MessagePattern.MainIgnoresTail | matrix_bot.py:95-107 | text after the period that ends the description changes neither amount, description nor match end |
| MessagePattern.LayoutMatches | matrix_bot.py:95 | `<amount> <keyword> <desc>.` at the start of a text is a main match with that amount and description |
| MessagePattern.ScanFromGroups | matrix_bot.py:95-107 | a text the main pattern matches with known groups scans to that amount and stripped description |
| MessagePattern.CommandMatches | matrix_bot.py:95 | `<amount> <on/for> <desc>.<rest>` matches the main pattern with that amount and description |
| MessagePattern.ScanWellFormedCommand | matrix_bot.py:95-107 | such a command scans to its amount and stripped description, whatever follows the period |
| MessagePattern.ParseWellFormedCommand | matrix_bot.py:83-111 | every command in the documented form parses to its amount and stripped description |
| ParserExamples.NoColonNoNote | matrix_bot.py:114-120 | a message without a colon has no note |
| ParserExamples.TrailingNote | matrix_bot.py:114-120 | `<colon-free text>. Note: <text>.` has the stripped text as its note |
| ParserExamples.DescriptionNote | matrix_bot.py:114-120 | a `Note:`/`note:` after colon-free text is found, even inside the description |
| ParserExamples.CoffeeExample | matrix_bot.py:83-122 | `12.50 on coffee.` gives amount 12.50, description "coffee" and no note |
| ParserExamples.RentExample | matrix_bot.py:83-122 | `20 for rent. Note: march payment.` gives amount 20, description "rent" and note "march payment" |
| ParserExamples.ParseCommandWithNote | matrix_bot.py:95-120 | a command followed by ` Note: <text>.` carries the stripped text as its note |
| ParserExamples.NoteInsideDescription | matrix_bot.py:114-120 | a note keyword inside the description, or inside `Footnote:`, is found, and the description keeps it |
| ParserExamples.ZeroAmountAccepted | matrix_bot.py:95-106 | a zero amount is accepted |
| ParserExamples.BlankDescriptionAccepted | matrix_bot.py:95-107 | a whitespace-only description is accepted and comes out empty |
| ParserExamples.BlankNoteAccepted | matrix_bot.py:114-120 | a whitespace-only note is accepted and comes out empty |
| ParserExamples.LeadingNonDigitRejected | matrix_bot.py:95-101 | an empty text, or one starting with whitespace, a sign or any other non-digit, is rejected |
| ParserExamples.PeriodWithoutFractionRejected | matrix_bot.py:95-101 | `12.` followed by a non-digit is rejected |
| ParserExamples.NoKeywordAfterAmount | matrix_bot.py:95-101 | an amount and whitespace not followed by `on`/`for` are rejected |
| ParserExamples.KeywordNeedsSpace | matrix_bot.py:95-101 | a keyword not followed by whitespace is rejected |
| ParserExamples.CapitalisedKeywordRejected | matrix_bot.py:95-101 | `On` is not a keyword: the message is rejected |
| ParserExamples.KeywordGluedToWordRejected | matrix_bot.py:95-101 | `12 onion.` and `12 format.` are rejected |
| Calendar.Format | matrix_bot.py:108 | the date text has ten characters, with dashes at positions 4 and 7 |
| Calendar.FormatRoundTrip | matrix_bot.py:108 | reading the `%Y-%m-%d` text back gives the same day |
| Ledger.BuildRequest | matrix_bot.py:134-145 | the URL is the base URL followed by `/api/v1/transactions`; the headers are exactly `Authorization: Bearer <token>` and JSON content type and accept; the payload holds exactly the record |
| Ledger.BearerToken | matrix_bot.py:136 | a token read from the headers is the one after `Bearer ` |
| Ledger.RequestCarriesTokenAndRecord | matrix_bot.py:134-145 | the server sees the configured token and the unchanged record as a one-element list |
| Ledger.Classify | matrix_bot.py:147-155 | `True` if and only if the status is 200 or 201 and the body decodes; `False` if and only if the status is anything else; `ValueError` if the transport raised it or the body of a success is not JSON; any other exception passes through |
| Ledger.CreateTransaction | matrix_bot.py:125-155 | the same four if-and-only-if cases, for the answer to the built request |
| SpendListener.Spend | matrix_bot.py:43-79 | the reaction sent and the exception that escapes are the specified outcome for every event, day, configuration and server |
| SpendListener.Expected | matrix_bot.py:43-79 | the outcome of one event: a reaction or an escaping exception only past the gate; the only exception that escapes is a non-`ValueError` one, and then no reaction is sent (`Spend` computes it; `OneReactionPastGate`, `CheckMeansCreated` and `CrossMeansRejected` say which reaction) |
| SpendListener.OneReactionPastGate | matrix_bot.py:49-79 | nothing is sent before the gate; past it exactly one reaction is sent unless a non-`ValueError` exception escapes, and then none is |
| SpendListener.CheckMeansCreated | matrix_bot.py:59-79 | a check mark is sent if and only if the message passes the gate, parses, and the server answers 200 or 201 with JSON |
| SpendListener.CrossMeansRejected | matrix_bot.py:59-76 | a cross is sent if and only if the message passes the gate and then parsing fails, the status is not 200/201, or a `ValueError` comes out of the submission |
| SpendListener.GateNeedsOnlyOneOfPrefixAndCommand | matrix_bot.py:49-53 | a message from another user passes the gate if and only if it has the prefix or names the command |
| SpendListener.PassesGate | matrix_bot.py:49-53 | the gate on line 52 as written: only messages from another user pass, and every such message with the prefix passes (`GateNeedsOnlyOneOfPrefixAndCommand` gives the full if-and-only-if) |
| SpendListener.ParserInputKeepsArgs | matrix_bot.py:56-57 | arguments without spaces reach the parser intact: splitting the joined text gives them back |
| SpendListener.ParserInput | matrix_bot.py:56-57 | the parser sees the empty text for no arguments and otherwise a text starting with the first argument (`ParserInputKeepsArgs`: space-free arguments split back out of it) |
| SpendListener.WellFormedCommandAcknowledged | matrix_bot.py:43-79 | a well-formed `$spend` from another user, sent to a server that creates every transaction, is answered with a check mark |
| SpendListener.AcceptedIsChecked | matrix_bot.py:59-79 | a message past the gate that parses, sent to a server that creates every transaction, gets a check mark |
| SpendListener.Reaction.Emoji | matrix_bot.py:70-79 | the reaction is a single emoji: U+2705 (check mark) exactly for `Check`, U+274C (cross mark) exactly for `Cross` |
| Text.StripShape | matrix_bot.py:107-120 | `strip()` returns the slice of the text between leading and trailing whitespace |
| Text.StripEnds | matrix_bot.py:107-120 | the stripped text neither starts nor ends with whitespace |
| Text.StripSpacePrefix | matrix_bot.py:107 | whitespace put in front of a text does not change its stripped form |
| Text.Strip | matrix_bot.py:107-120 | `strip()` never lengthens the text; `StripShape`, `StripEnds` and `StripSpacePrefix` characterise it |
| Text.SplitJoin | matrix_bot.py:57 | joining parts without the separator and splitting again gives the parts back |
| Text.Join | matrix_bot.py:57 | `sep.join()` gives the empty text for no parts and otherwise starts with the first part (`SplitJoin`: splitting gives back parts free of the separator; `JoinContainsParts`: every part occurs in it) |
| Config.ConfigReader.constructor | config_reader.py:3-6 | the reader keeps the file name and the loaded document |
| Config.ConfigReader.Get | config_reader.py:18-26 | the loop returns or raises exactly what the key-path walk gives |
| Config.Contains | config_reader.py:22 | Python's `in` on a JSON value: a `TypeError` exactly for null, booleans and numbers; otherwise true if and only if the key is a key of an object, an equal string element of a list, or a substring of a string |
| Config.Subscript | config_reader.py:23 | indexing by a string key succeeds only on an object, giving the member; otherwise it raises `TypeError` |
| Config.StepInto | config_reader.py:21-25 | one loop step finds a value exactly when the data is an object holding the key, and reports the key absent exactly when `in` says false |
| Config.WalkAppend | config_reader.py:20-26 | walking a longer path is walking its first part, then the rest from where it ended |
| Config.WalkExtend | config_reader.py:20-26 | one more key is one more step |
| Config.WalkStops | config_reader.py:20-26 | once the walk has stopped, further keys change nothing |
| Config.LookupDescends | config_reader.py:18-26 | `get()` returns the whole document; `get(k1, ..., kn)` is `get(k2, ..., kn)` on the member at `k1`: the same value, a `TypeError` where that raises one, and a `KeyError` naming the full key path where that raises one |
| Config.WalkFindsIff | config_reader.py:20-26 | the walk finds a value if and only if every key it reaches is a member of the object in hand |
| Config.KeyErrorAtFirstMissingKey | config_reader.py:22-25 | `KeyError` is raised if and only if some key is absent where the walk reaches it; its message is `Key k1 -> ... -> kn not found in configuration.` and names every requested key |
| Config.MissingKeyStops | config_reader.py:22-25 | a key absent where the walk reaches it makes the whole walk end as absent, whatever keys follow |
| Config.FirstStop | config_reader.py:20-26 | a stopped walk stopped at a definite key, with all earlier keys found |
| Config.Walk | config_reader.py:20-26 | the loop of `get()`: no keys finds the whole document, a stop needs at least one key, and a value is found past the first key only inside an object holding it (`WalkAppend`, `WalkFindsIff` and `FirstStop` give the rest) |
| Config.Lookup | config_reader.py:18-26 | `get()` with no keys returns the whole document, and every `KeyError` it raises names all the requested keys (`LookupDescends`, `KeyErrorAtFirstMissingKey`; `ConfigReader.Get` computes it) |

## Left out

- Unicode digits: `\d` also matches non-ASCII decimal digits; the model reads ASCII digits only. Whitespace is Python's full `str.isspace()` set.
- Floating point: `float()` of the amount is not modelled. The amount is kept as its digit text, with its exact rational value (`Decimal.Value`).
- Calendar.Format: the year is zero-padded to four digits. Where the platform's `strftime` does not pad years below 1000, the text for those years differs.
- The clock: `datetime.now()` is replaced by a `today` parameter.
- Serialisation and transport: `json.dumps`, `requests.post` and `response.json()` are not modelled. The transport is a parameter from the request to a status and whether the body is JSON, or to an exception. Exceptions are told apart only as `ValueError` or other, which is all the `except` clause distinguishes.
- Logging and `pprint` (matrix_bot.py:62-63, 69, 150, 153) produce no result the model could state.
- Sending reactions is represented by returning the reaction. A failure of `send_reaction` itself is not modelled.
- `MessageMatch` (`is_not_from_this_bot()`, `prefix()`, `command()`, `args()`) belongs to the Matrix library; its answers are inputs.
- `MatrixBot.__init__`, `_initialize_bot` and `run` (matrix_bot.py:16-39) are Matrix client setup. The two values `create_transaction` reads from the configuration are the `Settings` parameter. Settings holds them as strings; other JSON values formatted into the URL and header are not modelled.
- `ConfigReader._load_config` (config_reader.py:8-16) reads a file and decodes JSON. The constructor receives the decoded document, so its two error messages are not modelled.
- Config.Contains: the messages of the `TypeError`s Python raises are not modelled, only that one is raised.
- logger.py is not part of this model: it only configures logging.
