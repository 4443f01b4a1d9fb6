/**
 The `spend` message listener of the bot (`MatrixBot.setup_listeners`): it
 filters incoming messages, parses the `$spend` arguments, submits the
 withdrawal and acknowledges the message with a reaction.

 What `MessageMatch` reports about the message (sender, prefix, command,
 arguments) is an input, as are the clock and the HTTP transport. Sending a
 reaction is represented by returning it.
 */
module SpendListener {
  import opened Wrappers
  import opened Text
  import MessageParser
  import Calendar
  import Ledger
  import MessagePattern

  /** What the listener learns about a message from `MessageMatch`:
      `is_not_from_this_bot()`, `prefix()`, `command("spend")` and `args()`. */
  datatype Event = Event(notFromThisBot: bool, prefixMatches: bool, commandMatches: bool, args: seq<string>)

  /** The two reactions the listener sends. */
  datatype Reaction = Cross | Check {
    /** The emoji sent to the room: a single code point, the check mark
        exactly for a created transaction's reaction and the cross mark
        otherwise. */
    function Emoji(): (r: string)
      ensures |r| == 1
      ensures r == "\U{2705}" <==> this == Check
      ensures r == "\U{274C}" <==> this == Cross
    {
      match this
      case Cross => "\U{274C}"
      case Check => "\U{2705}"
    }
  }

  /** How the listener ended: the reaction it sent, if any, and the exception
      that escaped it, if any. */
  datatype Outcome = Outcome(reaction: Option<Reaction>, raised: Option<Ledger.Exception>)

  /** The two early returns: messages of the bot itself, and messages for
      which neither `prefix()` nor `command("spend")` holds. A message with
      the prefix but another command goes on to parsing. */
  predicate PassesGate(e: Event)
    ensures PassesGate(e) ==> e.notFromThisBot
    ensures e.notFromThisBot && e.prefixMatches ==> PassesGate(e)
  {
    e.notFromThisBot && !(!e.prefixMatches && !e.commandMatches)
  }

  /** The text handed to the parser: the arguments joined by single spaces. */
  function ParserInput(e: Event): (r: string)
    ensures |e.args| == 0 ==> r == ""
    ensures |e.args| > 0 ==> e.args[0] <= r
  {
    Join(e.args, " ")
  }

  /** The outcome of the listener, by the stage at which it stops: the gate,
      the parser, or the submission. `ValueError` from either stage is
      answered with a cross; any other exception escapes without a
      reaction. */
  function Expected(e: Event, today: Calendar.Date, settings: Ledger.Settings,
                    post: Ledger.Request -> Ledger.Exchange): (r: Outcome)
    requires today.Valid()
    ensures r.reaction.Some? || r.raised.Some? ==> PassesGate(e)
    ensures r.raised.Some? ==> r.raised == Some(Ledger.OtherError) && r.reaction.None?
  {
    if !PassesGate(e) then Outcome(None, None)
    else match MessageParser.ParseMessage(ParserInput(e), today)
      case Failure(_) => Outcome(Some(Cross), None)
      case Success(record) =>
        match Ledger.CreateTransaction(settings, record, post)
        case Returned(created) => Outcome(Some(if created then Check else Cross), None)
        case Propagated(ValueError) => Outcome(Some(Cross), None)
        case Propagated(OtherError) => Outcome(None, Some(Ledger.OtherError))
  }

  /** The listener itself, with its early returns and the `is_processed`
      flag. */
  method Spend(e: Event, today: Calendar.Date, settings: Ledger.Settings,
               post: Ledger.Request -> Ledger.Exchange)
    returns (reaction: Option<Reaction>, raised: Option<Ledger.Exception>)
    requires today.Valid()
    ensures Outcome(reaction, raised) == Expected(e, today, settings, post)
  {
    reaction, raised := None, None;
    if !e.notFromThisBot {
      return;
    }
    if !e.prefixMatches && !e.commandMatches {
      return;
    }
    var isProcessed := false;
    var argsStr := Join(e.args, " ");
    var parsed := MessageParser.ParseMessage(argsStr, today);
    if parsed.Failure? {
      reaction := Some(Cross);
      return;
    }
    var submission := Ledger.CreateTransaction(settings, parsed.value, post);
    if submission.Propagated? {
      if submission.error == Ledger.ValueError {
        reaction := Some(Cross);
      } else {
        raised := Some(submission.error);
      }
      return;
    }
    isProcessed := submission.created;
    if !isProcessed {
      reaction := Some(Cross);
      return;
    }
    reaction := Some(Check);
  }

  /** Before the gate nothing is sent; past it exactly one reaction is sent,
      unless an exception other than `ValueError` escapes, and then none is. */
  lemma OneReactionPastGate(e: Event, today: Calendar.Date, settings: Ledger.Settings,
                            post: Ledger.Request -> Ledger.Exchange)
    requires today.Valid()
    ensures var r := Expected(e, today, settings, post);
      && (!PassesGate(e) ==> r == Outcome(None, None))
      && (PassesGate(e) ==> (r.reaction.Some? <==> r.raised.None?))
      && (r.raised.Some? ==> r.raised == Some(Ledger.OtherError))
  {
  }

  /** A check mark is sent exactly when the message passes the gate, its
      arguments parse, and the server answers the posted record with 200 or
      201 and a JSON body. */
  lemma CheckMeansCreated(e: Event, today: Calendar.Date, settings: Ledger.Settings,
                          post: Ledger.Request -> Ledger.Exchange)
    requires today.Valid()
    ensures var parsed := MessageParser.ParseMessage(ParserInput(e), today);
      Expected(e, today, settings, post).reaction == Some(Check) <==>
        && PassesGate(e)
        && parsed.Success?
        && var x := post(Ledger.BuildRequest(settings, parsed.value));
           x.Answered? && Ledger.IsCreated(x.status) && x.jsonBody
  {
    var parsed := MessageParser.ParseMessage(ParserInput(e), today);
    if PassesGate(e) && parsed.Success? {
      var submission := Ledger.CreateTransaction(settings, parsed.value, post);
      assert Expected(e, today, settings, post).reaction == Some(Check) <==> submission == Ledger.Returned(true);
    }
  }

  /** A cross mark is sent exactly when the message passes the gate and then
      the parser rejects it, the server answers with another status, or a
      `ValueError` comes out of the submission. */
  lemma CrossMeansRejected(e: Event, today: Calendar.Date, settings: Ledger.Settings,
                           post: Ledger.Request -> Ledger.Exchange)
    requires today.Valid()
    ensures var parsed := MessageParser.ParseMessage(ParserInput(e), today);
      Expected(e, today, settings, post).reaction == Some(Cross) <==>
        && PassesGate(e)
        && (|| parsed.Failure?
            || var x := post(Ledger.BuildRequest(settings, parsed.value));
               || x == Ledger.Raised(Ledger.ValueError)
               || (x.Answered? && !(Ledger.IsCreated(x.status) && x.jsonBody)))
  {
    var parsed := MessageParser.ParseMessage(ParserInput(e), today);
    if PassesGate(e) && parsed.Success? {
      var submission := Ledger.CreateTransaction(settings, parsed.value, post);
      assert Expected(e, today, settings, post).reaction == Some(Cross) <==>
        submission == Ledger.Returned(false) || submission == Ledger.Propagated(Ledger.ValueError);
    }
  }

  /** The gate as written lets through a message that carries the prefix but
      names another command, and one that names the command without the
      prefix. */
  lemma GateNeedsOnlyOneOfPrefixAndCommand(e: Event)
    requires e.notFromThisBot
    ensures PassesGate(e) <==> e.prefixMatches || e.commandMatches
    ensures !e.commandMatches && e.prefixMatches ==> PassesGate(e)
  {
  }

  /** Arguments that came from splitting on spaces reach the parser intact:
      splitting the joined text gives them back. */
  lemma ParserInputKeepsArgs(e: Event)
    requires |e.args| >= 1 && forall i | 0 <= i < |e.args| :: ' ' !in e.args[i]
    ensures Split(ParserInput(e), ' ') == e.args
  {
    SplitJoin(e.args, ' ');
  }

  /** `$spend <amount> <on|for> <word>.` from another user, against a server
      that creates every transaction it receives, is acknowledged with a
      check mark. */
  lemma WellFormedCommandAcknowledged(amount: MessageParser.Decimal, keyword: string, word: string,
                                      today: Calendar.Date, settings: Ledger.Settings,
                                      post: Ledger.Request -> Ledger.Exchange)
    requires amount.Valid() && today.Valid()
    requires keyword == "on" || keyword == "for"
    requires |word| > 0 && '.' !in word
    requires forall q :: post(q) == Ledger.Answered(201, true)
    ensures Expected(Event(true, true, true, [amount.Lexeme(), keyword, word + "."]),
                     today, settings, post).reaction == Some(Check)
  {
    var e := Event(true, true, true, [amount.Lexeme(), keyword, word + "."]);
    ThreeArgsInput(e, amount.Lexeme(), keyword, word);
    MessagePattern.ParseWellFormedCommand(amount, keyword, word, "", today);
    AcceptedIsChecked(e, amount.Lexeme() + " " + keyword + " " + word + "." + "", today, settings, post);
  }

  /** Three arguments reach the parser separated by single spaces. */
  lemma ThreeArgsInput(e: Event, amount: string, keyword: string, word: string)
    requires e.args == [amount, keyword, word + "."]
    ensures ParserInput(e) == amount + " " + keyword + " " + word + "." + ""
  {
    assert Join(e.args[2..], " ") == word + ".";
    assert Join(e.args[1..], " ") == keyword + " " + (word + ".");
  }

  /** A message past the gate whose text parses, sent to a server that
      creates every transaction, gets a check mark. */
  lemma AcceptedIsChecked(e: Event, s: string, today: Calendar.Date, settings: Ledger.Settings,
                          post: Ledger.Request -> Ledger.Exchange)
    requires today.Valid() && PassesGate(e) && ParserInput(e) == s
    requires MessageParser.ParseMessage(s, today).Success?
    requires forall q :: post(q) == Ledger.Answered(201, true)
    ensures Expected(e, today, settings, post).reaction == Some(Check)
  {
    CheckMeansCreated(e, today, settings, post);
  }
}
