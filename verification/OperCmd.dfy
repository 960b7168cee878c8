/**
 Operator commands: a command heard on a channel waits in a queue until a USERHOST reply tells
 whether its sender is an operator, and is dropped when no reply comes in time.
 */
module OperCmd {
  import opened Options
  import opened Basics
  import opened LinkedList

  const COMMANDMAX: nat := 64
  const COMMANDINTERVAL: nat := 10
  const COMMANDTIMEOUT: int := 180

  const COMMAND_TABLE: seq<string> := ["CHECK", "SCAN", "STAT", "STATS", "STATUS", "FDSTAT"]

  /** A nickname, in which section 2.3.1 of RFC 1459 allows no `=`. */
  type Nick = n: string | '=' !in n

  /** uid tells queued commands apart in the history. */
  datatype Command = Command(uid: nat, kind: nat, param: string, nick: Nick, added: int)

  /** A handler run: for which command, on which USERHOST reply. */
  datatype Execution = Execution(command: Command, reply: string)

  datatype Commands = Commands(queue: seq<Command>, interval: nat, nextUid: nat, executed: seq<Execution>)

  const NO_COMMANDS := Commands([], 0, 0, [])

  // ---- Text ----

  function Upper(c: char): char {
    if 'a' <= c <= 'z' then c - 'a' + 'A' else c
  }

  /** strcasecmp(a, b) == 0 */
  predicate SameIgnoringCase(a: string, b: string) {
    |a| == |b| && forall i | 0 <= i < |a| :: Upper(a[i]) == Upper(b[i])
  }

  /** strchr, as an index: the length if the character does not occur. */
  function IndexOf(s: string, c: char): (i: nat)
    ensures i <= |s|
    ensures i < |s| ==> s[i] == c
    ensures c !in s[..i]
  {
    if s == [] || s[0] == c then 0
    else
      var i := 1 + IndexOf(s[1..], c);
      assert s[..i] == [s[0]] + s[1..][..i - 1];
      i
  }

  /** What follows the bot's name: the command word and its parameters. */
  function Split(text: string): Option<(string, string)> {
    var a := IndexOf(text, ' ');
    if a == |text| then None
    else
      var rest := text[a + 1..];
      var b := IndexOf(rest, ' ');
      Some(if b == |rest| then (rest, "") else (rest[..b], rest[b + 1..]))
  }

  // ---- command_parse ----

  /** The loop over the table from entry i on: queue the command for every name that fits. */
  function Enqueue(s: Commands, word: string, param: string, nick: Nick, now: int, i: nat): Commands
    decreases |COMMAND_TABLE| - i
  {
    if i >= |COMMAND_TABLE| then s
    else
      var s1 :=
        if SameIgnoringCase(word, COMMAND_TABLE[i])
        then s.(queue := s.queue + [Command(s.nextUid, i, param, nick, now)], nextUid := s.nextUid + 1) else s;
      Enqueue(s1, word, param, nick, now, i + 1)
  }

  function Parse(s: Commands, text: string, nick: Nick, now: int): Commands {
    if |s.queue| >= COMMANDMAX then s
    else
      match Split(text)
      case None => s
      case Some((word, param)) => Enqueue(s, word, param, nick, now, 0)
  }

  // ---- command_timer ----

  predicate TimedOut(c: Command, now: int) {
    now - c.added > COMMANDTIMEOUT
  }

  /** Drop timed-out commands from the front and stop at the first that is not. */
  function DropOld(q: seq<Command>, now: int): seq<Command> {
    if q != [] && TimedOut(q[0], now) then DropOld(q[1..], now) else q
  }

  function Timer(s: Commands, now: int): Commands {
    if s.interval < COMMANDINTERVAL then s.(interval := s.interval + 1)
    else s.(interval := 0, queue := DropOld(s.queue, now))
  }

  // ---- command_userhost ----

  /**
   The nick a reply names and whether it carries the operator flag; nothing if it names nobody. The flag
   stands before the first `=`, which in a reply that begins with one is the byte before the reply; the
   nick then ends before the reply does begin, and so the whole reply stands for it.
   */
  function ParseReply(before: char, reply: string): Option<(string, bool)> {
    var e := IndexOf(reply, '=');
    if e == |reply| then None
    else if e == 0 then Some(if before == '*' then (reply, true) else ("", false))
    else if reply[e - 1] == '*' then Some((reply[..e - 1], true))
    else Some((reply[..e], false))
  }

  function Without(q: seq<Command>, nick: string): seq<Command> {
    if q == [] then []
    else (if q[0].nick == nick then [] else [q[0]]) + Without(q[1..], nick)
  }

  function HandlerRuns(q: seq<Command>, nick: string, reply: string): seq<Execution> {
    if q == [] then []
    else (if q[0].nick == nick then [Execution(q[0], reply)] else []) + HandlerRuns(q[1..], nick, reply)
  }

  function Userhost(s: Commands, before: char, reply: string): Commands {
    match ParseReply(before, reply)
    case None => s
    case Some((nick, oper)) =>
      s.(queue := Without(s.queue, nick),
         executed := if oper then s.executed + HandlerRuns(s.queue, nick, reply) else s.executed)
  }

  // ---- What the queue keeps ----

  ghost predicate Ordered(q: seq<Command>, now: int) {
    && (forall i, j | 0 <= i < j < |q| :: q[i].added <= q[j].added)
    && (forall i | 0 <= i < |q| :: q[i].added <= now)
  }

  ghost predicate UidsRise(q: seq<Command>, nextUid: nat) {
    && (forall i, j | 0 <= i < j < |q| :: q[i].uid < q[j].uid)
    && (forall i | 0 <= i < |q| :: q[i].uid < nextUid)
  }

  /** A USERHOST reply for an operator: the nick, the `*` flag, `=` and the rest. */
  ghost predicate OperatorReply(reply: string, nick: string) {
    |nick| + 2 <= |reply| && reply[..|nick| + 2] == nick + "*="
  }

  /** Handlers ran for distinct commands that are no longer queued, each on an operator's reply for its sender. */
  ghost predicate Executed(s: Commands) {
    && (forall i, j | 0 <= i < j < |s.executed| :: s.executed[i].command.uid != s.executed[j].command.uid)
    && (forall i, j | 0 <= i < |s.executed| && 0 <= j < |s.queue| :: s.executed[i].command.uid != s.queue[j].uid)
    && (forall i | 0 <= i < |s.executed| ::
          && s.executed[i].command.uid < s.nextUid
          && s.executed[i].command.kind < |COMMAND_TABLE|
          && OperatorReply(s.executed[i].reply, s.executed[i].command.nick))
  }

  ghost predicate Inv(s: Commands, now: int) {
    && |s.queue| <= COMMANDMAX
    && Ordered(s.queue, now)
    && UidsRise(s.queue, s.nextUid)
    && (forall i | 0 <= i < |s.queue| :: s.queue[i].kind < |COMMAND_TABLE|)
    && Executed(s)
  }

  /** No two names in the table fit the same word, so one call queues at most one command. */
  lemma TableApart(word: string, i: nat, j: nat)
    requires i < j < |COMMAND_TABLE|
    ensures !(SameIgnoringCase(word, COMMAND_TABLE[i]) && SameIgnoringCase(word, COMMAND_TABLE[j]))
  {
    var a, b := COMMAND_TABLE[i], COMMAND_TABLE[j];
    assert |a| == |b| ==> Upper(a[0]) != Upper(b[0]) || Upper(a[1]) != Upper(b[1]);
    assert SameIgnoringCase(word, a) ==> Upper(word[0]) == Upper(a[0]) && Upper(word[1]) == Upper(a[1]);
    assert SameIgnoringCase(word, b) ==> Upper(word[0]) == Upper(b[0]) && Upper(word[1]) == Upper(b[1]);
  }

  /** Which command, if any, the table loop queues. */
  lemma {:induction false} EnqueueAtMostOne(s: Commands, word: string, param: string, nick: Nick, now: int, i: nat)
    requires i <= |COMMAND_TABLE|
    ensures var s' := Enqueue(s, word, param, nick, now, i);
            if exists k :: i <= k < |COMMAND_TABLE| && SameIgnoringCase(word, COMMAND_TABLE[k])
            then exists k :: && i <= k < |COMMAND_TABLE| && SameIgnoringCase(word, COMMAND_TABLE[k])
                             && s' == s.(queue := s.queue + [Command(s.nextUid, k, param, nick, now)],
                                         nextUid := s.nextUid + 1)
            else s' == s
    decreases |COMMAND_TABLE| - i
  {
    if i < |COMMAND_TABLE| {
      if SameIgnoringCase(word, COMMAND_TABLE[i]) {
        var s1 := s.(queue := s.queue + [Command(s.nextUid, i, param, nick, now)], nextUid := s.nextUid + 1);
        forall k | i < k < |COMMAND_TABLE| ensures !SameIgnoringCase(word, COMMAND_TABLE[k]) { TableApart(word, i, k); }
        EnqueueAtMostOne(s1, word, param, nick, now, i + 1);
      } else {
        EnqueueAtMostOne(s, word, param, nick, now, i + 1);
      }
    }
  }

  /** strcasecmp finds two words the same exactly if they differ in the case of letters alone. */
  lemma SameWordExactly(a: string, b: string)
    ensures SameIgnoringCase(a, b) <==> SameLetters(a, b)
  {
    if |a| == |b| {
      forall i | 0 <= i < |a| ensures Upper(a[i]) == Upper(b[i]) <==> SameLetter(a[i], b[i]) {
        LettersApart(a[i], b[i]);
      }
    }
  }

  /** What is said behind the bot's name: a word, and what follows it if there is more. */
  lemma SplitRight(bot: string, word: string, param: string)
    requires ' ' !in bot && ' ' !in word
    ensures Split(bot + " " + word + " " + param) == Some((word, param))
    ensures Split(bot + " " + word) == Some((word, ""))
    ensures Split(bot) == None
  {
    SplitTwo(bot, word, param, bot + " " + word + " " + param);
    BehindFirst(bot, word, bot + " " + word);
    NoneThere(word);
    NoneThere(bot);
  }

  lemma SplitTwo(bot: string, word: string, param: string, text: string)
    requires ' ' !in bot && ' ' !in word && text == bot + " " + word + " " + param
    ensures Split(text) == Some((word, param))
  {
    var rest := word + " " + param;
    assert text == bot + " " + rest;
    BehindFirst(bot, rest, text);
    BehindFirst(word, param, rest);
  }

  lemma BehindFirst(a: string, b: string, s: string)
    requires ' ' !in a && s == a + " " + b
    ensures IndexOf(s, ' ') == |a| && s[..|a|] == a && s[|a| + 1..] == b
  {
    assert s[..|a|] == a;
    FirstIndex(s, ' ', |a|);
  }

  lemma NoneThere(s: string)
    requires ' ' !in s
    ensures IndexOf(s, ' ') == |s|
  {
  }

  /** The command the queue is given. */
  ghost predicate Queued(s: Commands, s': Commands, k: nat, param: string, nick: Nick, now: int) {
    s' == s.(queue := s.queue + [Command(s.nextUid, k, param, nick, now)], nextUid := s.nextUid + 1)
  }

  /**
   A word behind the bot's name that is a name in the table, but for case, has that command queued for its sender with
   what follows the word as its parameter, if there is room; any other word, or none, changes nothing.
   */
  lemma {:induction false} HeardIsQueued(s: Commands, bot: string, word: string, param: string, nick: Nick, now: int,
                                         k: nat)
    requires ' ' !in bot && ' ' !in word && k < 6
    ensures |s.queue| < 64 && SameLetters(word, COMMAND_TABLE[k]) ==>
              Queued(s, Parse(s, bot + " " + word + " " + param, nick, now), k, param, nick, now)
              && Queued(s, Parse(s, bot + " " + word, nick, now), k, "", nick, now)
    ensures |s.queue| >= 64 || (forall j | 0 <= j < 6 :: !SameLetters(word, COMMAND_TABLE[j])) ==>
              Parse(s, bot + " " + word + " " + param, nick, now) == s && Parse(s, bot + " " + word, nick, now) == s
    ensures Parse(s, bot, nick, now) == s
  {
    SplitRight(bot, word, param);
    EnqueuedExactly(s, word, param, nick, now, k);
    EnqueuedExactly(s, word, "", nick, now, k);
  }

  lemma EnqueuedExactly(s: Commands, word: string, param: string, nick: Nick, now: int, k: nat)
    requires k < 6
    ensures var s' := Enqueue(s, word, param, nick, now, 0);
            && (SameLetters(word, COMMAND_TABLE[k]) ==> Queued(s, s', k, param, nick, now))
            && ((forall j | 0 <= j < 6 :: !SameLetters(word, COMMAND_TABLE[j])) ==> s' == s)
  {
    forall j | 0 <= j < 6 ensures SameIgnoringCase(word, COMMAND_TABLE[j]) <==> SameLetters(word, COMMAND_TABLE[j]) {
      SameWordExactly(word, COMMAND_TABLE[j]);
    }
    EnqueueAtMostOne(s, word, param, nick, now, 0);
    forall j | 0 <= j < 6 && j != k
      ensures !(SameIgnoringCase(word, COMMAND_TABLE[k]) && SameIgnoringCase(word, COMMAND_TABLE[j]))
    {
      if j < k { TableApart(word, j, k); } else { TableApart(word, k, j); }
    }
  }

  lemma ParseKeeps(s: Commands, text: string, nick: Nick, now: int)
    requires Inv(s, now)
    ensures Inv(Parse(s, text, nick, now), now)
  {
    if |s.queue| < COMMANDMAX && Split(text).Some? {
      var (word, param) := Split(text).value;
      EnqueueAtMostOne(s, word, param, nick, now, 0);
    }
  }

  ghost function Recent(q: seq<Command>, now: int): seq<Command> {
    if q == [] then [] else (if TimedOut(q[0], now) then [] else [q[0]]) + Recent(q[1..], now)
  }

  /** Stopping at the first command in time drops exactly the timed-out ones, since the queue is in order. */
  lemma {:induction false} DropOldExact(q: seq<Command>, now: int)
    requires Ordered(q, now)
    ensures DropOld(q, now) == Recent(q, now)
  {
    if q != [] {
      if TimedOut(q[0], now) {
        DropOldExact(q[1..], now);
      } else {
        AllRecent(q, now);
      }
    }
  }

  lemma {:induction false} AllRecent(q: seq<Command>, now: int)
    requires forall i | 0 <= i < |q| :: !TimedOut(q[i], now)
    ensures Recent(q, now) == q
  {
    if q != [] { AllRecent(q[1..], now); }
  }

  /** What is dropped is a front part of the queue. */
  lemma {:induction false} DropOldSuffix(q: seq<Command>, now: int)
    ensures |DropOld(q, now)| <= |q| && DropOld(q, now) == q[|q| - |DropOld(q, now)|..]
  {
    if q != [] && TimedOut(q[0], now) { DropOldSuffix(q[1..], now); }
  }

  lemma TimerKeeps(s: Commands, now: int)
    requires Inv(s, now)
    ensures Inv(Timer(s, now), now)
    ensures s.interval >= COMMANDINTERVAL ==> Timer(s, now).queue == Recent(s.queue, now)
  {
    DropOldSuffix(s.queue, now);
    DropOldExact(s.queue, now);
  }

  /** Which commands a reply takes off the queue, and which it leaves. */
  lemma {:induction false} WithoutMembers(q: seq<Command>, nick: string)
    ensures forall c :: c in Without(q, nick) <==> c in q && c.nick != nick
    ensures |Without(q, nick)| <= |q|
  {
    if q != [] {
      WithoutMembers(q[1..], nick);
      assert forall c :: c in q <==> c == q[0] || c in q[1..];
    }
  }

  lemma {:induction false} WithoutOrdered(q: seq<Command>, nick: string, now: int)
    requires Ordered(q, now)
    ensures Ordered(Without(q, nick), now)
  {
    if q != [] {
      WithoutOrdered(q[1..], nick, now);
      WithoutMembers(q[1..], nick);
      var r := Without(q[1..], nick);
      forall i | 0 <= i < |r| ensures q[0].added <= r[i].added {
        assert r[i] in q[1..];
      }
    }
  }

  lemma {:induction false} WithoutUids(q: seq<Command>, nick: string, nextUid: nat)
    requires UidsRise(q, nextUid)
    ensures UidsRise(Without(q, nick), nextUid)
  {
    if q != [] {
      var rest, r := q[1..], Without(q[1..], nick);
      RestRises(q, nextUid);
      WithoutUids(rest, nick, nextUid);
      WithoutMembers(rest, nick);
      forall i | 0 <= i < |r| ensures q[0].uid < r[i].uid {
        assert r[i] in rest;
      }
      PrependRises(q[0], r, nextUid);
    }
  }

  lemma RestRises(q: seq<Command>, nextUid: nat)
    requires UidsRise(q, nextUid) && q != []
    ensures UidsRise(q[1..], nextUid) && q[0].uid < nextUid && forall c | c in q[1..] :: q[0].uid < c.uid
  {
  }

  lemma PrependRises(c: Command, r: seq<Command>, nextUid: nat)
    requires UidsRise(r, nextUid) && c.uid < nextUid && forall i | 0 <= i < |r| :: c.uid < r[i].uid
    ensures UidsRise([c] + r, nextUid) && [] + r == r
  {
    Prepended(c, r);
    RisesFrom(c, r, [c] + r, nextUid);
  }

  lemma Prepended<T>(c: T, r: seq<T>)
    ensures forall i | 0 < i <= |r| :: ([c] + r)[i] == r[i - 1]
    ensures [] + r == r
  {
  }

  lemma RisesFrom(c: Command, r: seq<Command>, s: seq<Command>, nextUid: nat)
    requires UidsRise(r, nextUid) && c.uid < nextUid && forall i | 0 <= i < |r| :: c.uid < r[i].uid
    requires |s| == |r| + 1 && s[0] == c && forall i | 0 < i <= |r| :: s[i] == r[i - 1]
    ensures UidsRise(s, nextUid)
  {
  }

  /** The handlers run are those of the named sender's commands, one each, in order. */
  lemma {:induction false} HandlerRunsMembers(q: seq<Command>, nick: string, reply: string, nextUid: nat)
    requires UidsRise(q, nextUid)
    ensures var r := HandlerRuns(q, nick, reply);
            && (forall x :: x in r <==> x.reply == reply && x.command in q && x.command.nick == nick)
            && forall i, j | 0 <= i < j < |r| :: r[i].command.uid < r[j].command.uid
  {
    if q != [] {
      HandlerRunsMembers(q[1..], nick, reply, nextUid);
      assert forall c :: c in q <==> c == q[0] || c in q[1..];
      var r := HandlerRuns(q[1..], nick, reply);
      forall i | 0 <= i < |r| ensures q[0].uid < r[i].command.uid {
        assert r[i] in r && r[i].command in q[1..];
      }
    }
  }

  /** A reply is read as an operator's for a nickname exactly if it has the form of one. */
  lemma {:induction false} ReplyReadRight(before: char, reply: string)
    ensures forall nick: Nick :: ParseReply(before, reply) == Some((nick, true)) <==> OperatorReply(reply, nick)
  {
    var e := IndexOf(reply, '=');
    if 0 < e < |reply| && reply[e - 1] == '*' {
      assert reply[..e + 1] == reply[..e - 1] + "*=";
    }
    forall nick: Nick | OperatorReply(reply, nick) ensures ParseReply(before, reply) == Some((nick, true)) {
      var n := |nick|;
      assert reply[..n + 2][n] == '*' && reply[..n + 2][n + 1] == '=';
      assert reply[..n] == nick by { assert reply[..n + 2][..n] == nick; }
      FirstIndex(reply, '=', n + 1);
    }
  }

  lemma FirstIndex(s: string, c: char, i: nat)
    requires i < |s| && s[i] == c && c !in s[..i]
    ensures IndexOf(s, c) == i
  {
    NotThere(s, c, i);
    NotThere(s, c, IndexOf(s, c));
  }

  lemma NotThere(s: string, c: char, i: nat)
    requires i <= |s| && c !in s[..i]
    ensures forall k | 0 <= k < i :: s[k] != c
  {
    forall k | 0 <= k < i ensures s[k] != c {
      assert s[..i][k] == s[k];
    }
  }

  lemma {:induction false} UserhostKeeps(s: Commands, before: char, reply: string, now: int)
    requires Inv(s, now)
    ensures Inv(Userhost(s, before, reply), now)
  {
    ReplyReadRight(before, reply);
    match ParseReply(before, reply)
    case None =>
    case Some((nick, oper)) =>
      WithoutOrdered(s.queue, nick, now);
      WithoutUids(s.queue, nick, s.nextUid);
      WithoutMembers(s.queue, nick);
      HandlerRunsMembers(s.queue, nick, reply, s.nextUid);
      UserhostExecuted(s, reply, nick, oper);
      forall i | 0 <= i < |Without(s.queue, nick)| ensures Without(s.queue, nick)[i].kind < |COMMAND_TABLE| {
        assert Without(s.queue, nick)[i] in s.queue;
      }
  }

  lemma UserhostExecuted(s: Commands, reply: string, nick: string, oper: bool)
    requires Executed(s) && UidsRise(s.queue, s.nextUid)
    requires forall i | 0 <= i < |s.queue| :: s.queue[i].kind < |COMMAND_TABLE|
    requires oper && '=' !in nick ==> OperatorReply(reply, nick)
    ensures Executed(s.(queue := Without(s.queue, nick),
                        executed := if oper then s.executed + HandlerRuns(s.queue, nick, reply) else s.executed))
  {
    var runs, rest := HandlerRuns(s.queue, nick, reply), Without(s.queue, nick);
    WithoutMembers(s.queue, nick);
    HandlerRunsMembers(s.queue, nick, reply, s.nextUid);
    forall j | 0 <= j < |rest| ensures exists k :: 0 <= k < |s.queue| && s.queue[k] == rest[j] && rest[j].nick != nick {
      assert rest[j] in rest;
    }
    forall j | 0 <= j < |runs|
      ensures runs[j].reply == reply && runs[j].command.nick == nick
      ensures exists k :: 0 <= k < |s.queue| && s.queue[k] == runs[j].command
    {
      assert runs[j] in runs;
    }
  }

  lemma {:induction false} ReplyDivides(q: seq<Command>, nick: string, reply: string)
    ensures forall c | c in q ::
              if c.nick == nick then Execution(c, reply) in HandlerRuns(q, nick, reply) else c in Without(q, nick)
    ensures |Without(q, nick)| + |HandlerRuns(q, nick, reply)| == |q|
  {
    if q != [] {
      ReplyDivides(q[1..], nick, reply);
      forall c | c in q
        ensures if c.nick == nick then Execution(c, reply) in HandlerRuns(q, nick, reply) else c in Without(q, nick)
      {
        assert c == q[0] || c in q[1..];
      }
    }
  }

  /** An operator's reply runs the handler of every command of that nick once, and leaves the others queued. */
  lemma {:induction false} OperatorServed(s: Commands, before: char, reply: string, nick: Nick)
    requires OperatorReply(reply, nick)
    ensures var s' := Userhost(s, before, reply);
            && (forall c :: c in s'.queue <==> c in s.queue && c.nick != nick)
            && (forall c | c in s.queue && c.nick == nick :: Execution(c, reply) in s'.executed)
            && |s'.executed| - |s.executed| == |s.queue| - |s'.queue|
  {
    ReplyReadRight(before, reply);
    ReplyDivides(s.queue, nick, reply);
    WithoutMembers(s.queue, nick);
  }

  /** A USERHOST reply for somebody who is no operator: the nick and `=` without a `*` between them. */
  ghost predicate PlainReply(reply: string, nick: string) {
    nick != [] && nick[|nick| - 1] != '*' && |nick| + 1 <= |reply| && reply[..|nick| + 1] == nick + "="
  }

  /** A reply for somebody who is no operator drops every command of that nick, and none runs. */
  lemma {:induction false} OthersRefused(s: Commands, before: char, reply: string, nick: Nick)
    requires PlainReply(reply, nick)
    ensures var s' := Userhost(s, before, reply);
            (forall c :: c in s'.queue <==> c in s.queue && c.nick != nick) && s'.executed == s.executed
  {
    PlainReplyRead(before, reply, nick);
    WithoutMembers(s.queue, nick);
  }

  lemma PlainReplyRead(before: char, reply: string, nick: Nick)
    requires PlainReply(reply, nick)
    ensures ParseReply(before, reply) == Some((nick, false))
  {
    var n := |nick|;
    assert reply[n] == reply[..n + 1][n];
    assert reply[..n] == reply[..n + 1][..n] == nick;
    assert reply[n - 1] == reply[..n][n - 1];
    FirstIndex(reply, '=', n);
  }

  // ---- Runs ----

  datatype Event = Heard(text: string, nick: Nick) | Replied(before: char, reply: string) | Second

  function Step(s: Commands, e: Event, now: int): Commands {
    match e
    case Heard(text, nick) => Parse(s, text, nick, now)
    case Replied(before, reply) => Userhost(s, before, reply)
    case Second => Timer(s, now)
  }

  type Trace = seq<(Event, int)>

  function Run(trace: Trace): Commands {
    if trace == [] then NO_COMMANDS
    else Step(Run(trace[..|trace| - 1]), trace[|trace| - 1].0, trace[|trace| - 1].1)
  }

  ghost predicate ClockRises(trace: Trace) {
    forall i, j | 0 <= i < j < |trace| :: trace[i].1 <= trace[j].1
  }

  lemma LaterKeeps(s: Commands, now: int, later: int)
    requires Inv(s, now) && now <= later
    ensures Inv(s, later)
  {
  }

  /**
   After every run under a clock that does not go back: at most 64 commands wait, in the order they
   came; no handler ran twice for a command; and each ran on an operator's reply for its sender.
   */
  lemma {:induction false} RunKeeps(trace: Trace, now: int)
    requires ClockRises(trace) && forall i | 0 <= i < |trace| :: trace[i].1 <= now
    ensures Inv(Run(trace), now)
  {
    if trace != [] {
      var last := trace[|trace| - 1];
      var s := Run(trace[..|trace| - 1]);
      RunKeeps(trace[..|trace| - 1], last.1);
      match last.0 {
        case Heard(text, nick) => ParseKeeps(s, text, nick, last.1);
        case Replied(before, reply) => UserhostKeeps(s, before, reply, last.1);
        case Second => TimerKeeps(s, last.1);
      }
      LaterKeeps(Run(trace), last.1, now);
    }
  }

  /** How many seconds a run has. */
  ghost function Seconds(trace: Trace): nat {
    if trace == [] then 0
    else Seconds(trace[..|trace| - 1]) + if trace[|trace| - 1].0.Second? then 1 else 0
  }

  lemma {:induction false} IntervalCounts(trace: Trace)
    ensures Run(trace).interval == Seconds(trace) % 11
  {
    if trace != [] {
      IntervalCounts(trace[..|trace| - 1]);
      NextOfEleven(Seconds(trace[..|trace| - 1]));
      StepInterval(Run(trace[..|trace| - 1]), trace[|trace| - 1].0, trace[|trace| - 1].1);
    }
  }

  lemma NextOfEleven(n: nat)
    ensures (n + 1) % 11 == if n % 11 < 10 then n % 11 + 1 else 0
  {
  }

  lemma StepInterval(s: Commands, e: Event, now: int)
    ensures Step(s, e, now).interval == if !e.Second? then s.interval else if s.interval < 10 then s.interval + 1 else 0
  {
    if e.Heard? && Split(e.text).Some? {
      EnqueueAtMostOne(s, Split(e.text).value.0, Split(e.text).value.1, e.nick, now, 0);
    }
  }

  lemma {:induction false} RecentMembers(q: seq<Command>, now: int)
    ensures forall c :: c in Recent(q, now) <==> c in q && now - c.added <= 180
  {
    if q != [] {
      RecentMembers(q[1..], now);
      assert forall c :: c in q <==> c == q[0] || c in q[1..];
    }
  }

  lemma TimerExact(s: Commands, now: int)
    requires Ordered(s.queue, now)
    ensures var q := Timer(s, now).queue;
            if s.interval < 10 then q == s.queue else forall c :: c in q <==> c in s.queue && now - c.added <= 180
  {
    DropOldExact(s.queue, now);
    RecentMembers(s.queue, now);
  }

  lemma SecondRuns(trace: Trace, now: int)
    ensures Run(trace + [(Second, now)]) == Timer(Run(trace), now)
    ensures Seconds(trace + [(Second, now)]) == Seconds(trace) + 1
  {
    assert (trace + [(Second, now)])[..|trace|] == trace;
  }

  /** In any run every eleventh second drops exactly the commands older than three minutes; no other drops any. */
  lemma {:induction false} OldAreDropped(trace: Trace, now: int)
    requires ClockRises(trace) && forall i | 0 <= i < |trace| :: trace[i].1 <= now
    ensures var q, q' := Run(trace).queue, Run(trace + [(Second, now)]).queue;
            if Seconds(trace + [(Second, now)]) % 11 == 0
            then forall c :: c in q' <==> c in q && now - c.added <= 180 else q' == q
  {
    SecondRuns(trace, now);
    IntervalCounts(trace);
    NextOfEleven(Seconds(trace));
    RunKeeps(trace, now);
    TimerExact(Run(trace), now);
  }

  // ---- The queue, updated in place ----

  /** Command i is either the first one taken out of those from i on, or the first one left. */
  lemma OneAtATime(q: seq<Command>, i: nat, nick: string, reply: string)
    requires i < |q|
    ensures Without(q[i..], nick) == (if q[i].nick == nick then [] else [q[i]]) + Without(q[i + 1..], nick)
    ensures HandlerRuns(q[i..], nick, reply)
            == (if q[i].nick == nick then [Execution(q[i], reply)] else []) + HandlerRuns(q[i + 1..], nick, reply)
  {
    assert q[i..][1..] == q[i + 1..];
  }

  /** Taking command i out, with its handler run, leaves the same to come. */
  lemma TakenOut(q: seq<Command>, i: nat, nick: string, reply: string, q': seq<Command>, runs: seq<Execution>)
    requires i < |q| && q[i].nick == nick && q' == q[..i] + q[i + 1..]
    ensures q'[..i] + Without(q'[i..], nick) == q[..i] + Without(q[i..], nick)
    ensures HandlerRuns(q[i..], nick, reply) == [Execution(q[i], reply)] + HandlerRuns(q'[i..], nick, reply)
    ensures runs + [Execution(q[i], reply)] + HandlerRuns(q'[i..], nick, reply)
            == runs + HandlerRuns(q[i..], nick, reply)
  {
    OneAtATime(q, i, nick, reply);
    assert q'[..i] == q[..i] && q'[i..] == q[i + 1..];
  }

  /** Passing over command i leaves the same to come. */
  lemma PassedOver(q: seq<Command>, i: nat, nick: string, reply: string)
    requires i < |q| && q[i].nick != nick
    ensures q[..i + 1] + Without(q[i + 1..], nick) == q[..i] + Without(q[i..], nick)
    ensures HandlerRuns(q[i + 1..], nick, reply) == HandlerRuns(q[i..], nick, reply)
  {
    OneAtATime(q, i, nick, reply);
    assert q[..i + 1] == q[..i] + [q[i]];
  }

  class CommandQueue {
    const list: List<Command>
    var interval: nat
    var nextUid: nat
    /** The commands these fields stand for, and the history. */
    ghost var s: Commands
    /** The list and its nodes. */
    ghost var own: set<object>

    ghost predicate Valid()
      reads this, own
    {
      && this !in own && list in own && list.cells <= own
      && list.Valid()
      && s.queue == list.Contents() && s.interval == interval && s.nextUid == nextUid
    }

    /** What is owned now was owned before, or is new. */
    twostate predicate Grew()
      reads this
    {
      forall o | o in own :: o in old(own) || fresh(o)
    }

    constructor ()
      ensures Valid() && fresh(own) && s == NO_COMMANDS
    {
      list := new List();
      interval, nextUid, s := 0, 0, NO_COMMANDS;
      new;
      own := {list};
    }

    /** command_create, and the node it is queued in */
    method Queue(kind: nat, param: string, nick: Nick, now: int)
      requires Valid()
      modifies this, own
      ensures Valid() && Grew()
      ensures s == old(s).(queue := old(s).queue + [Command(old(s).nextUid, kind, param, nick, now)],
                           nextUid := old(s).nextUid + 1)
    {
      var c := Command(nextUid, kind, param, nick, now);
      var node := new Node(c);
      var added := list.Add(node);
      own := own + {node};
      nextUid := nextUid + 1;
      s := s.(queue := s.queue + [c], nextUid := nextUid);
    }

    /** command_parse */
    method OnHeard(text: string, nick: Nick, now: int)
      requires Valid()
      modifies this, own
      ensures Valid() && Grew() && s == Parse(old(s), text, nick, now)
    {
      if list.elements >= COMMANDMAX {
        return;
      }
      var parts := Split(text);
      if parts.None? {
        return;
      }
      LookUp(parts.value.0, parts.value.1, nick, now);
    }

    /** The loop over the table. */
    method LookUp(word: string, param: string, nick: Nick, now: int)
      requires Valid()
      modifies this, own
      ensures Valid() && Grew() && s == Enqueue(old(s), word, param, nick, now, 0)
    {
      var i := 0;
      while i < |COMMAND_TABLE|
        invariant i <= |COMMAND_TABLE| && Valid() && Grew()
        invariant Enqueue(s, word, param, nick, now, i) == Enqueue(old(s), word, param, nick, now, 0)
      {
        if SameIgnoringCase(word, COMMAND_TABLE[i]) {
          Queue(i, param, nick, now);
        }
        i := i + 1;
      }
    }

    /** command_free, list_remove and node_free for one command */
    method Drop(node: Node<Command>, ghost i: nat)
      requires Valid() && i < |list.nodes| && list.nodes[i] == node
      modifies this`s, own
      ensures Valid() && own == old(own)
      ensures list.nodes == old(list.nodes[..i] + list.nodes[i + 1..])
      ensures s == old(s).(queue := old(s).queue[..i] + old(s).queue[i + 1..])
    {
      list.Remove(node, i);
      s := s.(queue := s.queue[..i] + s.queue[i + 1..]);
    }

    /** command_timer, with the next node saved before the list may change */
    method OnSecond(now: int)
      requires Valid()
      modifies this, own
      ensures Valid() && own == old(own) && s == Timer(old(s), now)
    {
      if interval < COMMANDINTERVAL {
        interval := interval + 1;
        s := s.(interval := interval);
        return;
      }
      interval := 0;
      s := s.(interval := 0);
      var node := list.head;
      while node != null
        invariant Valid() && own == old(own) && node == At(list.nodes, 0)
        invariant s == old(s).(interval := 0, queue := s.queue)
        invariant DropOld(s.queue, now) == DropOld(old(s).queue, now)
        decreases |list.nodes|
      {
        var next := node.next;
        if !TimedOut(node.data, now) {
          return;
        }
        assert s.queue[..0] + s.queue[1..] == s.queue[1..];
        Drop(node, 0);
        node := next;
      }
    }

    /** What is left of the queue from command i on, and the handlers still to run, make up the same whole. */
    ghost predicate OnCourse(was: Commands, i: nat, nick: string, oper: bool, reply: string)
      reads this
    {
      && i <= |s.queue| && s == was.(queue := s.queue, executed := s.executed)
      && s.queue[..i] + Without(s.queue[i..], nick) == Without(was.queue, nick)
      && s.executed + (if oper then HandlerRuns(s.queue[i..], nick, reply) else [])
         == was.executed + if oper then HandlerRuns(was.queue, nick, reply) else []
    }

    /** The named sender's command: its handler runs for an operator, and it is dropped. */
    method Serve(node: Node<Command>, ghost was: Commands, ghost i: nat, ghost nick: string, oper: bool,
                 ghost reply: string)
      requires Valid() && i < |list.nodes| && list.nodes[i] == node && node.data.nick == nick
      requires OnCourse(was, i, nick, oper, reply)
      modifies this`s, own
      ensures Valid() && own == old(own)
      ensures list.nodes == old(list.nodes[..i] + list.nodes[i + 1..])
      ensures OnCourse(was, i, nick, oper, reply)
    {
      TakenOut(s.queue, i, nick, reply, s.queue[..i] + s.queue[i + 1..], s.executed);
      if oper {
        s := s.(executed := s.executed + [Execution(node.data, reply)]);
      }
      Drop(node, i);
    }

    /** command_userhost, with the next node saved before the list may change */
    method OnReply(before: char, reply: string)
      requires Valid()
      modifies this, own
      ensures Valid() && own == old(own) && s == Userhost(old(s), before, reply)
    {
      var parsed := ParseReply(before, reply);
      if parsed.None? {
        return;
      }
      ServeAll(parsed.value.0, parsed.value.1, reply);
    }

    method ServeAll(nick: string, oper: bool, ghost reply: string)
      requires Valid()
      modifies this, own
      ensures Valid() && own == old(own)
      ensures s == old(s).(queue := Without(old(s).queue, nick),
                           executed := old(s).executed + if oper then HandlerRuns(old(s).queue, nick, reply) else [])
    {
      var node := list.head;
      ghost var i: nat := 0;
      assert s.queue[..0] == [] && s.queue[0..] == s.queue;
      while node != null
        invariant Valid() && own == old(own) && OnCourse(old(s), i, nick, oper, reply)
        invariant node == At(list.nodes, i)
        decreases |list.nodes| - i
      {
        var next := node.next;
        if node.data.nick == nick {
          Serve(node, old(s), i, nick, oper, reply);
        } else {
          PassedOver(s.queue, i, nick, reply);
          i := i + 1;
        }
        node := next;
      }
      assert s.queue[i..] == [] && s.queue[..i] == s.queue;
    }

    /** Any event at any time takes the step of the queue on what the list stands for. */
    method Handle(e: Event, now: int)
      requires Valid()
      modifies this, own
      ensures Valid() && Grew() && s == Step(old(s), e, now)
    {
      match e {
        case Heard(text, nick) => OnHeard(text, nick, now);
        case Replied(before, reply) => OnReply(before, reply);
        case Second => OnSecond(now);
      }
    }

    method HandleAll(trace: Trace)
      requires Valid() && s == NO_COMMANDS
      modifies this, own
      ensures Valid() && Grew() && s == Run(trace)
      decreases |trace|
    {
      if trace != [] {
        var n := |trace| - 1;
        HandleAll(trace[..n]);
        Handle(trace[n].0, trace[n].1);
      }
    }

    /**
     A queue driven through any run: at most 64 nodes in the order they came, no handler run twice, and
     each only on an operator's reply for the sender.
     */
    static method Drive(trace: Trace, ghost now: int) returns (q: CommandQueue)
      requires ClockRises(trace) && forall i | 0 <= i < |trace| :: trace[i].1 <= now
      ensures q.Valid() && q.s == Run(trace)
      ensures |q.list.nodes| <= COMMANDMAX && Ordered(q.list.Contents(), now) && Executed(q.s)
    {
      q := new CommandQueue();
      q.HandleAll(trace);
      RunKeeps(trace, now);
    }
  }
}
