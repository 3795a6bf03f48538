/**
 * The Twitch IRC client of Chat.py. The socket is replaced by an abstract
 * endpoint: `outbox` is everything written to the connection, in order, and
 * `inbox` is what the server still has to deliver, one `recv` result per
 * entry, each either text that decodes as UTF-8 or a chunk that does not.
 *
 * `_FETCH_PATTERN` is specified by the positions at which it can match and
 * the order in which Python's backtracking matcher tries them.
 */
module Chat {
  import opened Results
  import opened Text

  /** One `recv` result: decodable text, or bytes that are not valid UTF-8. */
  datatype Chunk = Decoded(text: string) | Undecodable

  /** What `fetch` returns on a match: `(user, message, sent)`. */
  datatype ChatMessage = ChatMessage(user: string, message: string, sent: int)

  /** A closed connection makes `recv` return no bytes, which decode to the empty text. */
  function Next(inbox: seq<Chunk>): Chunk
  {
    if inbox == [] then Decoded("") else inbox[0]
  }

  function Rest(inbox: seq<Chunk>): seq<Chunk>
  {
    if inbox == [] then [] else inbox[1..]
  }

  // ---------------------------------------------------------------------------
  // `_FETCH_PATTERN`:  :(.*)\!.*@.*\.tmi\.twitch\.tv PRIVMSG #{join_username} :(.*)

  /** The fixed text between the host and the message, with the joined channel in it. */
  function Literal(join: string): string
  {
    ".tmi.twitch.tv PRIVMSG #" + join + " :"
  }

  /** `s[i:j]` can be covered by `.*`: `.` matches every character except a line feed. */
  predicate NoNewline(s: string, i: int, j: int)
  {
    0 <= i <= j <= |s| && forall k :: i <= k < j ==> s[k] != '\n'
  }

  /**
   * One way for the pattern to match `s`: the leading ':' at `colon`, the '!'
   * at `bang`, the '@' at `at` and the literal starting at `lit`.
   */
  datatype Span = Span(colon: nat, bang: nat, at: nat, lit: nat)

  predicate MatchesAt(s: string, join: string, m: Span)
  {
    && m.colon < m.bang < m.at < m.lit
    && OccursAt(s, m.lit, Literal(join))
    && s[m.colon] == ':' && s[m.bang] == '!' && s[m.at] == '@'
    && NoNewline(s, m.colon + 1, m.bang)
    && NoNewline(s, m.bang + 1, m.at)
    && NoNewline(s, m.at + 1, m.lit)
  }

  /**
   * `re.search` tries `m1` before `m2`: it scans start positions left to right,
   * and each greedy `.*` tries its longest extent first.
   */
  predicate Precedes(m1: Span, m2: Span)
  {
    || m1.colon < m2.colon
    || (m1.colon == m2.colon && m1.bang > m2.bang)
    || (m1.colon == m2.colon && m1.bang == m2.bang && m1.at > m2.at)
    || (m1.colon == m2.colon && m1.bang == m2.bang && m1.at == m2.at && m1.lit > m2.lit)
  }

  /** The match `re.search` reports: it matches, and it is tried before every other match. */
  ghost predicate IsReported(s: string, join: string, m: Span)
  {
    MatchesAt(s, join, m) && forall m' :: MatchesAt(s, join, m') ==> m' == m || Precedes(m, m')
  }

  /** The largest `k` in `[lo, hi)` with `f(k)`. */
  function FindLast(lo: int, hi: int, f: int -> bool): (r: Option<int>)
    ensures r.Some? ==> lo <= r.value < hi && f(r.value) && forall k :: r.value < k < hi ==> !f(k)
    ensures r.None? ==> forall k :: lo <= k < hi ==> !f(k)
    decreases hi - lo
  {
    if lo >= hi then None
    else if f(hi - 1) then Some(hi - 1)
    else FindLast(lo, hi - 1, f)
  }

  /** The smallest `k` in `[lo, hi)` with `f(k)`. */
  function FindFirst(lo: int, hi: int, f: int -> bool): (r: Option<int>)
    ensures r.Some? ==> lo <= r.value < hi && f(r.value) && forall k :: lo <= k < r.value ==> !f(k)
    ensures r.None? ==> forall k :: lo <= k < hi ==> !f(k)
    decreases hi - lo
  {
    if lo >= hi then None
    else if f(lo) then Some(lo)
    else FindFirst(lo + 1, hi, f)
  }

  /** `.*\.tmi…:` can follow an '@' at `at` with the literal at `k`. */
  predicate LiteralFits(s: string, join: string, at: int, k: int)
  {
    at < k && NoNewline(s, at + 1, k) && OccursAt(s, k, Literal(join))
  }

  function LiteralTest(s: string, join: string, at: int): int -> bool
  {
    k => LiteralFits(s, join, at, k)
  }

  function LastLiteral(s: string, join: string, at: int): Option<int>
  {
    FindLast(at + 1, |s|, LiteralTest(s, join, at))
  }

  /** `.*@` can follow a '!' at `bang` with the '@' at `k`, and the rest can match after it. */
  predicate AtFits(s: string, join: string, bang: int, k: int)
  {
    0 <= bang < k < |s| && s[k] == '@' && NoNewline(s, bang + 1, k) && LastLiteral(s, join, k).Some?
  }

  function AtTest(s: string, join: string, bang: int): int -> bool
  {
    k => AtFits(s, join, bang, k)
  }

  function LastAt(s: string, join: string, bang: int): Option<int>
  {
    FindLast(bang + 1, |s|, AtTest(s, join, bang))
  }

  /** `(.*)\!` can follow a ':' at `colon` with the '!' at `k`, and the rest can match after it. */
  predicate BangFits(s: string, join: string, colon: int, k: int)
  {
    0 <= colon < k < |s| && s[k] == '!' && NoNewline(s, colon + 1, k) && LastAt(s, join, k).Some?
  }

  function BangTest(s: string, join: string, colon: int): int -> bool
  {
    k => BangFits(s, join, colon, k)
  }

  function LastBang(s: string, join: string, colon: int): Option<int>
  {
    FindLast(colon + 1, |s|, BangTest(s, join, colon))
  }

  /** The pattern can match from position `k`. */
  predicate ColonFits(s: string, join: string, k: int)
  {
    0 <= k < |s| && s[k] == ':' && LastBang(s, join, k).Some?
  }

  /** Every match of the pattern makes each stage of the search succeed, at or beyond its positions. */
  lemma MatchFitsEachStage(s: string, join: string, m: Span)
    requires MatchesAt(s, join, m)
    ensures LiteralFits(s, join, m.at, m.lit)
    ensures LastLiteral(s, join, m.at).Some? && LastLiteral(s, join, m.at).value >= m.lit
    ensures AtFits(s, join, m.bang, m.at)
    ensures LastAt(s, join, m.bang).Some? && LastAt(s, join, m.bang).value >= m.at
    ensures BangFits(s, join, m.colon, m.bang)
    ensures LastBang(s, join, m.colon).Some? && LastBang(s, join, m.colon).value >= m.bang
    ensures ColonFits(s, join, m.colon) && ColonTest(s, join)(m.colon)
  {
    assert LiteralTest(s, join, m.at)(m.lit);
    assert AtTest(s, join, m.bang)(m.at);
    assert BangTest(s, join, m.colon)(m.bang);
  }

  function ColonTest(s: string, join: string): int -> bool
  {
    k => ColonFits(s, join, k)
  }

  /** `re.search(pattern, s)`: the reported match, or none when the pattern occurs nowhere. */
  function Search(s: string, join: string): (r: Option<Span>)
    ensures r.Some? ==> IsReported(s, join, r.value)
    ensures r.None? ==> forall m :: !MatchesAt(s, join, m)
  {
    match FindFirst(0, |s|, ColonTest(s, join))
    case None =>
      NoColonNoMatch(s, join);
      None
    case Some(colon) =>
      var bang := LastBang(s, join, colon).value;
      var at := LastAt(s, join, bang).value;
      var lit := LastLiteral(s, join, at).value;
      var m := Span(colon, bang, at, lit);
      SearchReports(s, join, m);
      Some(m)
  }

  lemma NoColonNoMatch(s: string, join: string)
    requires FindFirst(0, |s|, ColonTest(s, join)) == None
    ensures forall m :: !MatchesAt(s, join, m)
  {
    forall m | MatchesAt(s, join, m) ensures false {
      MatchFitsEachStage(s, join, m);
    }
  }

  lemma SearchReports(s: string, join: string, m: Span)
    requires FindFirst(0, |s|, ColonTest(s, join)) == Some(m.colon as int)
    requires LastBang(s, join, m.colon) == Some(m.bang as int)
    requires LastAt(s, join, m.bang) == Some(m.at as int)
    requires LastLiteral(s, join, m.at) == Some(m.lit as int)
    ensures IsReported(s, join, m)
  {
    assert ColonTest(s, join)(m.colon);
    assert BangTest(s, join, m.colon)(m.bang);
    assert AtTest(s, join, m.bang)(m.at);
    assert LiteralTest(s, join, m.at)(m.lit);
    assert MatchesAt(s, join, m);
    forall m' | MatchesAt(s, join, m') ensures m' == m || Precedes(m, m') {
      MatchFitsEachStage(s, join, m');
      assert m.colon <= m'.colon;
      if m'.colon == m.colon {
        assert m'.bang <= m.bang;
        if m'.bang == m.bang {
          assert m'.at <= m.at;
        }
      }
    }
  }

  /** Where the final greedy `(.*)` stops: the next line feed at or after `i`, or the end. */
  function LineEnd(s: string, i: nat): (e: nat)
    requires i <= |s|
    ensures i <= e <= |s| && NoNewline(s, i, e) && (e < |s| ==> s[e] == '\n')
    decreases |s| - i
  {
    if i == |s| || s[i] == '\n' then i else LineEnd(s, i + 1)
  }

  /** `match.groups()` of a match: the user between ':' and '!', the message from after the literal to the line's end. */
  function Groups(s: string, join: string, m: Span): (string, string)
    requires MatchesAt(s, join, m)
  {
    var body := m.lit + |Literal(join)|;
    (s[m.colon + 1..m.bang], s[body..LineEnd(s, body)])
  }

  /** `re.search(_FETCH_PATTERN.format(join_username=join), resp.strip())`, as its groups. */
  function FetchGroups(resp: string, join: string): (r: Option<(string, string)>)
    ensures r.None? <==> forall m :: !MatchesAt(Strip(resp), join, m)
    ensures r.Some? ==> exists m :: IsReported(Strip(resp), join, m) && r.value == Groups(Strip(resp), join, m)
  {
    var s := Strip(resp);
    match Search(s, join)
    case None => None
    case Some(m) => Some(Groups(s, join, m))
  }

  /** Characters of a Twitch login name. */
  predicate IsNameChar(c: char)
  {
    'a' <= c <= 'z' || 'A' <= c <= 'Z' || '0' <= c <= '9' || c == '_'
  }

  predicate IsName(s: string)
  {
    forall k :: 0 <= k < |s| ==> IsNameChar(s[k])
  }

  /** `s` has no character `c`. */
  predicate Avoids(s: string, c: char)
  {
    forall k :: 0 <= k < |s| ==> s[k] != c
  }

  /** A channel message as the server sends it: `:nick!ident@host.tmi.twitch.tv PRIVMSG #join :msg`. */
  function PrivmsgLine(nick: string, ident: string, host: string, join: string, msg: string): string
  {
    ":" + nick + "!" + ident + "@" + host + Literal(join) + msg
  }

  /** In `x + [ch] + y`, when neither `x` nor `y` has `ch`, the only `ch` is the one between them. */
  lemma SoleOccurrence(x: string, ch: char, y: string)
    requires Avoids(x, ch) && Avoids(y, ch)
    ensures (x + [ch] + y)[|x|] == ch
    ensures forall k :: 0 <= k < |x + [ch] + y| && (x + [ch] + y)[k] == ch ==> k == |x|
  {
  }

  lemma LiteralShape(join: string)
    requires IsName(join)
    ensures |Literal(join)| == 26 + |join| && Literal(join)[23] == '#'
    ensures forall k :: 0 <= k < |Literal(join)| && Literal(join)[k] == '#' ==> k == 23
    ensures Avoids(Literal(join), '\n')
  {
    var prefix := ".tmi.twitch.tv PRIVMSG ";
    assert Literal(join) == prefix + ['#'] + (join + " :");
    assert Avoids(prefix, '#') && Avoids(prefix, '\n');
    SoleOccurrence(prefix, '#', join + " :");
  }

  /**
   * The literal cannot start again inside itself: after its leading '.', the
   * only other '.'s are followed two places on by 'w' or 'v', never the 'm' of
   * ".tmi".
   */
  lemma LiteralDots(join: string)
    requires IsName(join)
    ensures forall k :: 0 < k < |Literal(join)| && Literal(join)[k] == '.' ==>
              k + 2 < |Literal(join)| && Literal(join)[k + 2] != 'm'
  {
    var prefix := ".tmi.twitch.tv PRIVMSG #";
    var lit := Literal(join);
    assert lit == prefix + join + " :";
    assert forall k :: |prefix| <= k < |prefix| + |join| ==> lit[k] == join[k - |prefix|];
  }

  /**
   * In `a + Literal(join) + msg`, when `a` has no '#' and `msg` does not
   * contain the literal, the literal occurs only right after `a`.
   */
  lemma LiteralOnlyAt(line: string, join: string, a: string, msg: string, k: int)
    requires IsName(join) && Avoids(a, '#') && !Contains(msg, Literal(join))
    requires line == a + Literal(join) + msg && OccursAt(line, k, Literal(join))
    ensures k == |a|
  {
    var lit := Literal(join);
    LiteralShape(join);
    LiteralDots(join);
    assert lit[0] == '.' && lit[2] == 'm';
    assert line[k..k + |lit|] == lit;
    assert line[k + 23] == '#' && line[k] == '.' && line[k + 2] == 'm';
    if k >= |a| + |lit| {
      assert line[k..k + |lit|] == msg[k - |a| - |lit|..k - |a|];
      assert OccursAt(msg, k - |a| - |lit|, lit);
    }
  }

  /**
   * A message line in the server's format, followed by any white space (the
   * usual "\r\n"), yields its sender and its text, provided the names are
   * login names and the text is a single line that does not end in white
   * space (which `strip` would remove) and does not quote the literal (the
   * greedy `.*` before it would then reach the quoted copy).
   */
  lemma PrivmsgLineFetched(nick: string, ident: string, host: string, join: string, msg: string, ending: string)
    requires IsName(nick) && IsName(ident) && IsName(host) && IsName(join)
    requires Avoids(msg, '\n') && !Contains(msg, Literal(join))
    requires msg == [] || !IsSpace(msg[|msg| - 1])
    requires forall k :: 0 <= k < |ending| ==> IsSpace(ending[k])
    ensures FetchGroups(PrivmsgLine(nick, ident, host, join, msg) + ending, join) == Some((nick, msg))
  {
    var line := PrivmsgLine(nick, ident, host, join, msg);
    var m0 := PrivmsgOnlyMatch(nick, ident, host, join, msg);
    StripPadded(line, ending);
    ReportedUnique(line, join, m0);
    GroupsOfLastLine(line, join, m0);
    var t := line + ending;
    assert Strip(t) == line;
    assert FetchGroups(t, join) == Some(Groups(line, join, m0));
  }

  /** When no line feed follows the literal, the message group runs to the end of the text. */
  lemma GroupsOfLastLine(s: string, join: string, m: Span)
    requires MatchesAt(s, join, m) && Avoids(s[m.lit + |Literal(join)|..], '\n')
    ensures Groups(s, join, m) == (s[m.colon + 1..m.bang], s[m.lit + |Literal(join)|..])
  {
    var body := m.lit + |Literal(join)|;
    assert forall k :: body <= k < |s| ==> s[k] == s[body..][k - body];
    assert LineEnd(s, body) == |s|;
    assert s[body..|s|] == s[body..];
  }

  /** When a text has a single match, `re.search` reports it. */
  lemma ReportedUnique(s: string, join: string, m0: Span)
    requires MatchesAt(s, join, m0) && forall m :: MatchesAt(s, join, m) ==> m == m0
    ensures Search(s, join) == Some(m0)
  {
  }

  /** The separators of a well-formed message line, and the fact that they give its only match. */
  lemma PrivmsgOnlyMatch(nick: string, ident: string, host: string, join: string, msg: string) returns (m0: Span)
    requires IsName(nick) && IsName(ident) && IsName(host) && IsName(join)
    requires Avoids(msg, '\n') && !Contains(msg, Literal(join))
    ensures var line := PrivmsgLine(nick, ident, host, join, msg);
            && line[0] == ':'
            && line[|line| - 1] == (if msg == [] then ':' else msg[|msg| - 1])
            && MatchesAt(line, join, m0) && (forall m :: MatchesAt(line, join, m) ==> m == m0)
            && m0.bang == |nick| + 1 && m0.lit + |Literal(join)| + |msg| == |line|
            && line[m0.colon + 1..m0.bang] == nick && line[m0.lit + |Literal(join)|..] == msg
  {
    var line := PrivmsgLine(nick, ident, host, join, msg);
    var c := [':'] + nick;
    var b := c + ['!'] + ident;
    var a := b + ['@'] + host;
    assert line == a + Literal(join) + msg;
    SoleOccurrence([], ':', nick);
    assert [] + [':'] + nick == c;
    SoleOccurrence(c, '!', ident);
    SoleOccurrence(b, '@', host);
    assert b == a[..|b|] && c == a[..|c|];
    assert Avoids(c, '\n') && Avoids(c, '#');
    assert Avoids(b, '\n') && Avoids(b, '#');
    assert Avoids(a, '\n') && Avoids(a, '#');
    m0 := Span(0, |c|, |b|, |a|);
    assert c[0] == ':' && b[|c|] == '!' && a[|b|] == '@';
    OnlyMatch(line, join, a, b, c, msg, m0);
    assert line[1..|c|] == nick;
    assert line[|a| + |Literal(join)|..] == msg;
    assert line[|a| + |Literal(join)| - 1] == ':';
  }

  /** The line has exactly one match: the one at the fields' own separators. */
  lemma OnlyMatch(line: string, join: string, a: string, b: string, c: string, msg: string, m0: Span)
    requires IsName(join) && Avoids(msg, '\n') && !Contains(msg, Literal(join))
    requires line == a + Literal(join) + msg && m0 == Span(0, |c|, |b|, |a|)
    requires 0 < |c| < |b| < |a| && c[0] == ':' && b[|c|] == '!' && a[|b|] == '@'
    requires Avoids(a, '\n') && Avoids(a, '#')
    requires forall k :: 0 <= k < |c| && c[k] == ':' ==> k == 0
    requires forall k :: 0 <= k < |b| && b[k] == '!' ==> k == |c|
    requires forall k :: 0 <= k < |a| && a[k] == '@' ==> k == |b|
    requires b == a[..|b|] && c == a[..|c|]
    ensures MatchesAt(line, join, m0)
    ensures forall m :: MatchesAt(line, join, m) ==> m == m0
  {
    var lit := Literal(join);
    LiteralShape(join);
    assert line[..|a|] == a && line[|a|..|a| + |lit|] == lit;
    assert Avoids(line, '\n');
    assert line[0] == ':' && line[|c|] == '!' && line[|b|] == '@';
    assert OccursAt(line, |a|, lit);
    assert MatchesAt(line, join, m0);
    forall m | MatchesAt(line, join, m) ensures m == m0 {
      LiteralOnlyAt(line, join, a, msg, m.lit);
      assert a[m.at] == '@';
      assert b[m.bang] == '!';
      assert c[m.colon] == ':';
    }
  }

  // ---------------------------------------------------------------------------
  // The client

  /** The three lines that log in and join the channel, each ended by a newline. */
  function Handshake(loginUsername: string, joinUsername: string, authToken: string): seq<string>
  {
    ["PASS " + authToken + "\n", "NICK " + loginUsername + "\n", "JOIN #" + joinUsername + "\n"]
  }

  class Chat {
    const joinUsername: string
    /** Everything sent on the connection, in order. */
    var outbox: seq<string>
    /** The chunks the server has still to deliver. */
    var inbox: seq<Chunk>

    /**
     * Connects, sends the handshake and discards the server's first five
     * chunks; `server` is everything the server will send on this connection.
     */
    constructor (loginUsername: string, joinUsername: string, authToken: string, server: seq<Chunk>)
      ensures this.joinUsername == joinUsername
      ensures outbox == Handshake(loginUsername, joinUsername, authToken)
      ensures inbox == if |server| < 5 then [] else server[5..]
    {
      this.joinUsername := joinUsername;
      outbox := [];
      inbox := server;
      new;
      Send("PASS " + authToken + "\n");
      Send("NICK " + loginUsername + "\n");
      Send("JOIN #" + joinUsername + "\n");
      for i := 0 to 5
        invariant outbox == Handshake(loginUsername, joinUsername, authToken)
        invariant inbox == if |server| < i then [] else server[i..]
      {
        var _ := Recv();
      }
    }

    /** `sock.send(line)` */
    method Send(line: string)
      modifies this
      ensures outbox == old(outbox) + [line]
      ensures inbox == old(inbox)
    {
      outbox := outbox + [line];
    }

    /** `sock.recv(...)`, with the UTF-8 decoding folded into the chunk. */
    method Recv() returns (c: Chunk)
      modifies this
      ensures c == Next(old(inbox)) && inbox == Rest(old(inbox))
      ensures outbox == old(outbox)
    {
      c := Next(inbox);
      inbox := Rest(inbox);
    }

    /**
     * `fetch`: reads one chunk; `now` is the clock value read before it.
     * Undecodable chunks are dropped; text starting with "PING" is answered
     * with one "PONG"; anything else is matched against the pattern for the
     * joined channel.
     */
    method Fetch(now: int) returns (r: Option<ChatMessage>)
      modifies this
      ensures inbox == Rest(old(inbox))
      ensures match Next(old(inbox))
        case Undecodable => r == None && outbox == old(outbox)
        case Decoded(resp) =>
          if IsPrefix("PING", resp) then r == None && outbox == old(outbox) + ["PONG\n"]
          else
            && outbox == old(outbox)
            && r == match FetchGroups(resp, joinUsername)
                    case None => None
                    case Some(g) => Some(ChatMessage(g.0, g.1, now))
    {
      var sent := now;
      var c := Recv();
      match c
      case Undecodable =>
        return None;
      case Decoded(resp) =>
        if IsPrefix("PING", resp) {
          Send("PONG\n");
          return None;
        }
        match FetchGroups(resp, joinUsername)
        case None =>
          return None;
        case Some(g) =>
          return Some(ChatMessage(g.0, g.1, sent));
    }
  }

  /**
   * A whole session: the handshake, a keep-alive "PING" from the server, then
   * one chat line in the joined channel. The PING is answered and yields
   * nothing; the chat line yields its sender and text, stamped with the clock
   * value read before it.
   */
  method PingThenMessage(login: string, token: string, join: string, greeting: seq<Chunk>,
                         nick: string, ident: string, host: string, msg: string, t1: int, t2: int)
      returns (first: Option<ChatMessage>, second: Option<ChatMessage>, sent: seq<string>)
    requires |greeting| == 5
    requires IsName(nick) && IsName(ident) && IsName(host) && IsName(join)
    requires Avoids(msg, '\n') && !Contains(msg, Literal(join)) && (msg == [] || !IsSpace(msg[|msg| - 1]))
    ensures first == None
    ensures second == Some(ChatMessage(nick, msg, t2))
    ensures sent == Handshake(login, join, token) + ["PONG\n"]
  {
    var ping := "PING :tmi.twitch.tv\r\n";
    var line := PrivmsgLine(nick, ident, host, join, msg) + "\r\n";
    var server := greeting + [Decoded(ping), Decoded(line)];
    assert server[5..] == [Decoded(ping), Decoded(line)];
    var chat := new Chat(login, join, token, server);
    assert IsPrefix("PING", ping);
    first := chat.Fetch(t1);
    assert chat.inbox == [Decoded(line)];
    assert line[0] == ':' && !IsPrefix("PING", line);
    PrivmsgLineFetched(nick, ident, host, join, msg, "\r\n");
    second := chat.Fetch(t2);
    sent := chat.outbox;
  }
}
