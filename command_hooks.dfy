/** `DiscordBot.on_command_completion` and `DiscordBot.on_command_error`:
    the completion log line, and the classification of a command's error
    into a user notice or a re-raise. */
module CommandHooks {
  import opened Wrappers
  import opened Text
  import opened Logging

  // ---------------------------------------------------------------------
  // Completion

  /** What the completion hook reads from its context: the command's
      qualified name ("group sub"), the guild's name when the command was run
      in a guild, and the author as `str(context.author)` renders them. */
  datatype Invocation = Invocation(qualifiedName: string, guild: Option<string>, author: string)

  /** `qualified_name.split(" ")[0]`: the top-level command name. */
  function ExecutedCommand(qualifiedName: string): string
  {
    Split(qualifiedName, " ")[0]
  }

  /** The top-level name is the part of the qualified name before its first
      space, or the whole name when it has no space. */
  lemma ExecutedCommandIsFirstWord(qualifiedName: string)
    ensures var cmd := ExecutedCommand(qualifiedName);
      cmd <= qualifiedName && ' ' !in cmd &&
      (cmd == qualifiedName || qualifiedName[|cmd|] == ' ')
  {
    SplitFirst(qualifiedName, " ");
    var cmd := ExecutedCommand(qualifiedName);
    forall k | 0 <= k < |cmd|
      ensures cmd[k] != ' '
    {
      assert !StartsWith(qualifiedName[k..], " ");
      assert qualifiedName[k..][..1] == [qualifiedName[k]];
    }
    if cmd != qualifiedName {
      assert StartsWith(qualifiedName[|cmd|..], " ");
      assert qualifiedName[|cmd|..][..1] == [qualifiedName[|cmd|]];
    }
  }

  /** The info line logged once a command has completed. */
  function CompletionLine(inv: Invocation): (line: LogLine)
    ensures line.Info?
  {
    var cmd := ExecutedCommand(inv.qualifiedName);
    match inv.guild
    case Some(guild) => Info("Executed " + cmd + " in " + guild + " by " + inv.author)
    case None => Info("Executed " + cmd + " by " + inv.author + " in DMs")
  }

  /** The wording of the line, for a top-level command ("ping") and for a
      subcommand ("group sub") alike: the line names the top-level word. */
  lemma CompletionNamesGroup(group: string, inv: Invocation)
    requires ' ' !in group
    requires inv.qualifiedName == group || StartsWith(inv.qualifiedName, group + " ")
    ensures CompletionLine(inv).text ==
      if inv.guild.Some? then "Executed " + group + " in " + inv.guild.value + " by " + inv.author
      else "Executed " + group + " by " + inv.author + " in DMs"
  {
    var rest := inv.qualifiedName[|group|..];
    assert inv.qualifiedName == group + rest;
    SplitFreePrefix(group, rest, " ");
    if rest == "" {
      assert !StartsWith(rest, " ");
    } else {
      assert rest[..1] == (group + " ")[|group|..];
      assert StartsWith(rest, " ");
    }
    assert Split(rest, " ")[0] == "";
    assert group + "" == group;
  }

  // ---------------------------------------------------------------------
  // Errors

  /** The errors the hook tells apart. `retryAfter` is in whole seconds. */
  datatype CommandError =
    | CommandOnCooldown(retryAfter: nat)
    | NotOwner
    | MissingPermissions(missing: seq<string>)
    | BotMissingPermissions(missing: seq<string>)
    | MissingRequiredArgument(text: string)   // `str(error)`
    | Unclassified(name: string)              // any other exception

  /** What the hook does: send one embed (an optional title and a
      description), or raise the error again. */
  datatype Reply = Notice(title: Option<string>, description: string) | Reraise(error: CommandError)

  const SlowDownPrefix: string := "**Slow down** - Try again in "
  const NotOwnerText: string := "You're not the owner of the bot!"
  const UserPermsPrefix: string := "You're missing permission(s): "
  const BotPermsPrefix: string := "I'm missing permission(s): "
  const ErrorTitle: string := "Error!"

  /** The two `divmod`s and the `% 24` of the cooldown branch. */
  function CooldownParts(t: nat): (hms: (nat, nat, nat))
    ensures hms.0 < 24 && hms.1 < 60 && hms.2 < 60
    ensures hms.0 * 3600 + hms.1 * 60 + hms.2 == t % 86400
  {
    var minutes, seconds := t / 60, t % 60;
    var hours, minutes' := minutes / 60, minutes % 60;
    var hours' := hours % 24;
    DayDecomposition(t, hours', minutes', seconds);
    (hours', minutes', seconds)
  }

  lemma DayDecomposition(t: nat, h: nat, m: nat, s: nat)
    requires s == t % 60 && m == (t / 60) % 60 && h == (t / 60 / 60) % 24
    ensures h * 3600 + m * 60 + s == t % 86400
  {
    var q1 := t / 60;
    var q2 := q1 / 60;
    var q3 := q2 / 24;
    assert t == q1 * 60 + s;
    assert q1 == q2 * 60 + m;
    assert q2 == q3 * 24 + h;
    assert t == q3 * 86400 + (h * 3600 + m * 60 + s);
    assert 0 <= h * 3600 + m * 60 + s < 86400;
    ModOfDecomposition(t, q3, h * 3600 + m * 60 + s, 86400);
  }

  lemma ModOfDecomposition(t: int, q: int, r: int, d: int)
    requires d > 0 && 0 <= r < d && t == q * d + r
    ensures t % d == r
  {
    var q', r' := t / d, t % d;
    assert t == q' * d + r';
    assert (q - q') * d == r' - r;
    if q > q' {
      MulAtLeast(q - q', d);
    } else if q < q' {
      MulAtLeast(q' - q, d);
    }
  }

  lemma MulAtLeast(k: int, d: int)
    requires k >= 1 && d > 0
    ensures k * d >= d
  {
  }

  /** The wait as the notice spells it: "Xh " when there are hours,
      "Ym " when there are minutes, and always "Zs". */
  function CooldownText(t: nat): string
  {
    var (h, m, s) := CooldownParts(t);
    (if h != 0 then NatToString(h) + "h " else "") +
    (if m != 0 then NatToString(m) + "m " else "") +
    NatToString(s) + "s"
  }

  /** The notice or re-raise for one error, by the order of the
      `isinstance` tests. */
  function OnCommandError(e: CommandError): (r: Reply)
    ensures r.Reraise? <==> e.Unclassified?
    ensures r.Reraise? ==> r.error == e
    ensures r.Notice? ==> (r.title.Some? <==> e.MissingRequiredArgument?)
  {
    match e
    case CommandOnCooldown(t) => Notice(None, SlowDownPrefix + CooldownText(t))
    case NotOwner => Notice(None, NotOwnerText)
    case MissingPermissions(missing) => Notice(None, UserPermsPrefix + "`" + Join(missing, ", ") + "`")
    case BotMissingPermissions(missing) => Notice(None, BotPermsPrefix + "`" + Join(missing, ", ") + "`")
    case MissingRequiredArgument(text) => Notice(Some(ErrorTitle), Capitalize(text))
    case Unclassified(_) => Reraise(e)
  }

  // ---------------------------------------------------------------------
  // Reading a cooldown notice back

  function UnitSeconds(u: char): nat
  {
    if u == 'h' then 3600 else if u == 'm' then 60 else 1
  }

  /** The seconds one "<digits><unit>" piece stands for. */
  function PieceSeconds(piece: string): Option<nat>
  {
    if |piece| >= 2 && AllDigits(piece[..|piece| - 1]) && piece[|piece| - 1] in "hms" then
      Some(ParseNat(piece[..|piece| - 1]) * UnitSeconds(piece[|piece| - 1]))
    else None
  }

  function SumPieces(pieces: seq<string>): Option<nat>
    decreases |pieces|
  {
    if pieces == [] then Some(0)
    else match (PieceSeconds(pieces[0]), SumPieces(pieces[1..]))
      case (Some(a), Some(b)) => Some(a + b)
      case _ => None
  }

  /** The number of seconds a wait such as "1h 1m 1s" spells. */
  function ReadDuration(text: string): Option<nat>
  {
    SumPieces(Split(text, " "))
  }

  function CooldownPieces(t: nat): seq<string>
  {
    var (h, m, s) := CooldownParts(t);
    (if h != 0 then [NatToString(h) + "h"] else []) +
    (if m != 0 then [NatToString(m) + "m"] else []) +
    [NatToString(s) + "s"]
  }

  lemma PieceRoundTrip(n: nat, u: char)
    requires u in "hms"
    ensures PieceSeconds(NatToString(n) + [u]) == Some(n * UnitSeconds(u))
    ensures ' ' !in NatToString(n) + [u]
  {
    var piece := NatToString(n) + [u];
    assert piece[..|piece| - 1] == NatToString(n);
    ParseNatToString(n);
    assert forall i :: 0 <= i < |piece| ==> piece[i] != ' ' by {
      assert forall i :: 0 <= i < |NatToString(n)| ==> IsDigit(NatToString(n)[i]);
    }
  }

  lemma CooldownTextIsJoin(t: nat)
    ensures CooldownText(t) == Join(CooldownPieces(t), " ")
  {
    var (h, m, s) := CooldownParts(t);
    var hs, ms, ss := NatToString(h) + "h", NatToString(m) + "m", NatToString(s) + "s";
    assert NatToString(h) + "h " == hs + " ";
    assert NatToString(m) + "m " == ms + " ";
    if h != 0 && m != 0 {
      assert CooldownPieces(t) == [hs, ms, ss];
      assert [hs, ms, ss][1..] == [ms, ss];
      assert [ms, ss][1..] == [ss];
      assert Join([ss], " ") == ss;
      assert Join([ms, ss], " ") == ms + " " + ss;
      assert Join([hs, ms, ss], " ") == hs + " " + (ms + " " + ss);
    } else if h != 0 {
      assert CooldownPieces(t) == [hs, ss];
    } else if m != 0 {
      assert CooldownPieces(t) == [ms, ss];
    } else {
      assert CooldownPieces(t) == [ss];
    }
  }

  lemma SumOne(a: string, x: nat)
    requires PieceSeconds(a) == Some(x)
    ensures SumPieces([a]) == Some(x)
  {
    assert [a][1..] == [];
  }

  lemma SumCons(a: string, rest: seq<string>, x: nat, y: nat)
    requires PieceSeconds(a) == Some(x) && SumPieces(rest) == Some(y)
    ensures SumPieces([a] + rest) == Some(x + y)
  {
    assert ([a] + rest)[1..] == rest;
  }

  lemma MinutesAndSeconds(m: nat, s: nat)
    ensures SumPieces((if m != 0 then [NatToString(m) + "m"] else []) + [NatToString(s) + "s"]) == Some(m * 60 + s)
  {
    var ms, ss := NatToString(m) + "m", NatToString(s) + "s";
    PieceRoundTrip(m, 'm');
    PieceRoundTrip(s, 's');
    assert UnitSeconds('m') == 60 && UnitSeconds('s') == 1;
    SumOne(ss, s);
    if m != 0 {
      SumCons(ms, [ss], m * 60, s);
      assert [ms] + [ss] == [ms, ss];
    } else {
      assert [] + [ss] == [ss];
    }
  }

  /** The pieces of a cooldown wait add up to the retry time modulo a day. */
  lemma CooldownPiecesSum(t: nat)
    ensures SumPieces(CooldownPieces(t)) == Some(t % 86400)
  {
    var (h, m, s) := CooldownParts(t);
    var hs, ms, ss := NatToString(h) + "h", NatToString(m) + "m", NatToString(s) + "s";
    PieceRoundTrip(h, 'h');
    PieceRoundTrip(m, 'm');
    PieceRoundTrip(s, 's');
    assert UnitSeconds('h') == 3600 && UnitSeconds('m') == 60 && UnitSeconds('s') == 1;
    var tail := (if m != 0 then [ms] else []) + [ss];
    MinutesAndSeconds(m, s);
    if h != 0 {
      SumCons(hs, tail, h * 3600, m * 60 + s);
      assert CooldownPieces(t) == [hs] + tail;
    } else {
      assert CooldownPieces(t) == tail;
    }
  }

  /** Reading the wait back from the notice gives the retry time modulo one
      day: hours wrap at 24 and nothing else is lost. The pieces are the
      non-zero hours, the non-zero minutes and the seconds, in that order. */
  lemma CooldownRoundTrip(t: nat)
    ensures ReadDuration(CooldownText(t)) == Some(t % 86400)
    ensures Split(CooldownText(t), " ") == CooldownPieces(t)
  {
    var (h, m, s) := CooldownParts(t);
    var pieces := CooldownPieces(t);
    CooldownTextIsJoin(t);
    PieceRoundTrip(h, 'h');
    PieceRoundTrip(m, 'm');
    PieceRoundTrip(s, 's');
    assert forall i :: 0 <= i < |pieces| ==> ' ' !in pieces[i];
    SplitJoin(pieces, " ");
    CooldownPiecesSum(t);
  }

  /** The cooldown notice is the "Slow down" prefix followed by the wait as
      `CooldownText` spells it, and reading that wait back gives the retry
      time modulo one day. */
  lemma CooldownNotice(t: nat)
    ensures var r := OnCommandError(CommandOnCooldown(t));
      r.Notice? && r.title.None? && r.description == SlowDownPrefix + CooldownText(t) &&
      StartsWith(r.description, SlowDownPrefix) &&
      ReadDuration(r.description[|SlowDownPrefix|..]) == Some(t % 86400)
  {
    var d := SlowDownPrefix + CooldownText(t);
    assert d[|SlowDownPrefix|..] == CooldownText(t);
    CooldownRoundTrip(t);
  }

  /** A caller who is not the owner is told so, with no title. */
  lemma NotOwnerNotice()
    ensures OnCommandError(NotOwner) == Notice(None, "You're not the owner of the bot!")
  {
  }

  /** The fixed examples: 3661 s, 45 s and one hour. */
  lemma CooldownExamples()
    ensures CooldownText(3661) == "1h 1m 1s"
    ensures CooldownText(45) == "45s"
    ensures CooldownText(3600) == "1h 0s"
    ensures CooldownText(86400 + 61) == "1m 1s"
  {
    assert CooldownParts(3661) == (1, 1, 1);
    assert CooldownParts(45) == (0, 0, 45);
    assert CooldownParts(3600) == (1, 0, 0);
    assert CooldownParts(86461) == (0, 1, 1);
    assert NatToString(45) == NatToString(4) + [DigitChar(5)];
  }

  // ---------------------------------------------------------------------
  // Reading a permission notice back

  /** The permission names listed in a notice with the given prefix. */
  function ReadPermissions(description: string, prefix: string): Option<seq<string>>
  {
    if |description| >= |prefix| + 2 && description[..|prefix|] == prefix
       && description[|prefix|] == '`' && description[|description| - 1] == '`'
    then Some(Split(description[|prefix| + 1..|description| - 1], ", "))
    else None
  }

  /** Both permission notices list the missing permissions between
      backticks, separated by ", ", in the error's order: reading the
      notice back gives that list (when it is not empty and no name holds a
      comma). */
  lemma {:induction false} PermissionsRoundTrip(e: CommandError)
    requires e.MissingPermissions? || e.BotMissingPermissions?
    requires |e.missing| > 0 && forall i :: 0 <= i < |e.missing| ==> ',' !in e.missing[i]
    ensures var prefix := if e.MissingPermissions? then UserPermsPrefix else BotPermsPrefix;
      ReadPermissions(OnCommandError(e).description, prefix) == Some(e.missing)
  {
    var prefix := if e.MissingPermissions? then UserPermsPrefix else BotPermsPrefix;
    var body := Join(e.missing, ", ");
    var d := OnCommandError(e).description;
    assert d == prefix + "`" + body + "`";
    assert d[..|prefix|] == prefix;
    assert d[|prefix|] == '`';
    assert d[|prefix| + 1..|d| - 1] == body;
    SplitJoin(e.missing, ", ");
  }

  /** The example of a user lacking two permissions. */
  lemma TwoMissingPermissions()
    ensures OnCommandError(MissingPermissions(["manage_messages", "ban_members"]))
      == Notice(None, UserPermsPrefix + "`" + "manage_messages" + ", " + "ban_members" + "`")
  {
    assert Join(["manage_messages", "ban_members"], ", ") == "manage_messages" + ", " + "ban_members" by {
      assert ["manage_messages", "ban_members"][1..] == ["ban_members"];
    }
  }

  /** The missing-argument notice: titled "Error!", its description the
      error text with only the first letter upper-case. */
  lemma MissingArgumentNotice(text: string)
    ensures var r := OnCommandError(MissingRequiredArgument(text));
      r.Notice? && r.title == Some(ErrorTitle) && r.description == Capitalize(text) &&
      |r.description| == |text| &&
      (|text| > 0 ==> !IsLower(r.description[0])) &&
      (forall i :: 1 <= i < |text| ==> !IsUpper(r.description[i])) &&
      Capitalize(r.description) == r.description
  {
    CapitalizeIdempotent(text);
  }
}
