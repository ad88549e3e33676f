/** `DiscordBot.on_message`: drop messages of the bot itself or of any bot
    account, ping a fixed role for each of two hardcoded authors, then always
    hand the message on to command processing. */
module MessageRouter {
  import opened Wrappers
  import opened Logging

  /** What the handler looks at in an inbound message. */
  datatype Message = Message(fromSelf: bool, authorIsBot: bool, authorId: int)

  /** The handler's effects, in the order it performs them. */
  datatype Action =
    | Send(text: string)      // `message.channel.send(text)`
    | Log(line: LogLine)      // a line on the bot's logger
    | ProcessCommands         // `self.process_commands(message)`

  const StockBotId: int := 1388645311580340254
  const OtherAuthorId: int := 1388645310938611793
  const StockRoleMention: string := "<@&1388502220659494983>"
  const OtherRoleMention: string := "<@&1388502800912355429>"

  /** Whether the handler ignores the message altogether. */
  predicate Dropped(m: Message)
  {
    m.fromSelf || m.authorIsBot
  }

  /** One guarded ping: the send, then an info line if it went through or an
      error line with the exception text if it raised. */
  function Ping(mention: string, sentLine: string, failedPrefix: string, sendFailure: Option<string>): (r: seq<Action>)
    ensures |r| == 2 && r[0] == Send(mention) && r[1].Log?
    ensures r[1].line.Error? <==> sendFailure.Some?
  {
    [Send(mention)] +
    match sendFailure
    case None => [Log(Info(sentLine))]
    case Some(e) => [Log(Error(failedPrefix + e))]
  }

  /** The texts `send` is called with, in order. A send that raised is
      still counted: the call was made, its failure is in the log. */
  function Sent(actions: seq<Action>): seq<string>
    decreases |actions|
  {
    if actions == [] then []
    else (if actions[0].Send? then [actions[0].text] else []) + Sent(actions[1..])
  }

  /** How many times command processing is started. */
  function CommandPasses(actions: seq<Action>): nat
    decreases |actions|
  {
    if actions == [] then 0
    else (if actions[0].ProcessCommands? then 1 else 0) + CommandPasses(actions[1..])
  }

  lemma {:induction false} SentAppend(a: seq<Action>, b: seq<Action>)
    ensures Sent(a + b) == Sent(a) + Sent(b)
    ensures CommandPasses(a + b) == CommandPasses(a) + CommandPasses(b)
    decreases |a|
  {
    if a == [] {
      assert a + b == b;
    } else {
      assert (a + b)[0] == a[0];
      assert (a + b)[1..] == a[1..] + b;
      SentAppend(a[1..], b);
    }
  }

  lemma PingSends(mention: string, sentLine: string, failedPrefix: string, sendFailure: Option<string>)
    ensures Sent(Ping(mention, sentLine, failedPrefix, sendFailure)) == [mention]
    ensures CommandPasses(Ping(mention, sentLine, failedPrefix, sendFailure)) == 0
  {
    var p := Ping(mention, sentLine, failedPrefix, sendFailure);
    assert |p| == 2 && p[0] == Send(mention) && p[1].Log?;
    assert p[1..][1..] == [];
    assert Sent(p[1..]) == [];
    assert CommandPasses(p[1..]) == 0;
  }

  /** The handler. `sendFailure` is what the role ping's `send` raised, if
      it raised; it only matters for the two hardcoded authors. */
  function OnMessage(m: Message, sendFailure: Option<string>): (actions: seq<Action>)
    ensures Dropped(m) <==> actions == []
    ensures !Dropped(m) ==> actions[|actions| - 1] == ProcessCommands
    ensures !Dropped(m) ==>
      |actions| == if m.authorId == StockBotId || m.authorId == OtherAuthorId then 3 else 1
  {
    if Dropped(m) then []
    else
      (if m.authorId == StockBotId then
         Ping(StockRoleMention, "Pinged stock role after stock bot message.", "Failed to ping stock role: ", sendFailure)
       else if m.authorId == OtherAuthorId then
         Ping(OtherRoleMention, "Pinged other role after other user message.", "Failed to ping other role: ", sendFailure)
       else [])
      + [ProcessCommands]
  }

  /** Messages of the bot itself or of any bot account cause nothing. */
  lemma DroppedDoesNothing(m: Message, sendFailure: Option<string>)
    requires Dropped(m)
    ensures OnMessage(m, sendFailure) == []
  {
  }

  /** What gets sent: one ping of the stock role for the stock bot, one ping
      of the other role for the other author, nothing for anybody else. */
  lemma {:induction false} OnMessageSends(m: Message, sendFailure: Option<string>)
    ensures Sent(OnMessage(m, sendFailure)) ==
      if Dropped(m) then []
      else if m.authorId == StockBotId then [StockRoleMention]
      else if m.authorId == OtherAuthorId then [OtherRoleMention]
      else []
  {
    if !Dropped(m) {
      var head := OnMessage(m, sendFailure)[..|OnMessage(m, sendFailure)| - 1];
      assert OnMessage(m, sendFailure) == head + [ProcessCommands];
      SentAppend(head, [ProcessCommands]);
      if m.authorId == StockBotId {
        PingSends(StockRoleMention, "Pinged stock role after stock bot message.", "Failed to ping stock role: ", sendFailure);
      } else if m.authorId == OtherAuthorId {
        PingSends(OtherRoleMention, "Pinged other role after other user message.", "Failed to ping other role: ", sendFailure);
      }
    }
  }

  /** Every message that is not dropped ends with exactly one pass through
      command processing, whoever wrote it and whether or not the ping
      failed. */
  lemma {:induction false} OnMessageProcessesOnce(m: Message, sendFailure: Option<string>)
    requires !Dropped(m)
    ensures var actions := OnMessage(m, sendFailure);
      |actions| > 0 && actions[|actions| - 1] == ProcessCommands && CommandPasses(actions) == 1
  {
    var actions := OnMessage(m, sendFailure);
    var head := actions[..|actions| - 1];
    assert actions == head + [ProcessCommands];
    SentAppend(head, [ProcessCommands]);
    if m.authorId == StockBotId {
      PingSends(StockRoleMention, "Pinged stock role after stock bot message.", "Failed to ping stock role: ", sendFailure);
    } else if m.authorId == OtherAuthorId {
      PingSends(OtherRoleMention, "Pinged other role after other user message.", "Failed to ping other role: ", sendFailure);
    }
  }

  /** A failed ping, in either branch, is caught: after the send it logs an
      error line with the exception text and command processing still
      follows. */
  lemma FailedPingIsLogged(m: Message, e: string)
    requires !Dropped(m) && (m.authorId == StockBotId || m.authorId == OtherAuthorId)
    ensures OnMessage(m, Some(e)) ==
      if m.authorId == StockBotId then
        [Send(StockRoleMention), Log(Error("Failed to ping stock role: " + e)), ProcessCommands]
      else
        [Send(OtherRoleMention), Log(Error("Failed to ping other role: " + e)), ProcessCommands]
  {
  }

  /** A ping that goes through, in either branch, is logged as an info
      line before command processing. */
  lemma SuccessfulPingIsLogged(m: Message)
    requires !Dropped(m) && (m.authorId == StockBotId || m.authorId == OtherAuthorId)
    ensures OnMessage(m, None) ==
      if m.authorId == StockBotId then
        [Send(StockRoleMention), Log(Info("Pinged stock role after stock bot message.")), ProcessCommands]
      else
        [Send(OtherRoleMention), Log(Info("Pinged other role after other user message.")), ProcessCommands]
  {
  }

  /** A message from any other author is only handed on to command
      processing: nothing is sent and nothing is logged. */
  lemma OtherAuthorOnlyProcesses(m: Message, sendFailure: Option<string>)
    requires !Dropped(m) && m.authorId != StockBotId && m.authorId != OtherAuthorId
    ensures OnMessage(m, sendFailure) == [ProcessCommands]
  {
  }
}
