// The loopback side of the sign-in: waiting for the browser's redirect and checking it, as
// sections 4.1.2 and 4.1.2.1 of RFC 6749 require.
module OAuthRedirect {
  import opened Wrappers
  import Utf8

  // ---------- comparing the state ----------

  function ToBits(bytes: seq<Utf8.Byte>): (bits: seq<bv8>)
    ensures |bits| == |bytes| && forall i | 0 <= i < |bytes| :: bits[i] == bytes[i] as bv8
  {
    seq(|bytes|, i requires 0 <= i < |bytes| => bytes[i] as bv8)
  }

  lemma ByteFromBits(b: Utf8.Byte)
    ensures (b as bv8) as int == b
  {
  }

  lemma ToBitsInjective(a: seq<Utf8.Byte>, b: seq<Utf8.Byte>)
    requires ToBits(a) == ToBits(b)
    ensures a == b
  {
    forall i | 0 <= i < |a|
      ensures a[i] == b[i]
    {
      assert ToBits(a)[i] == ToBits(b)[i];
      ByteFromBits(a[i]);
      ByteFromBits(b[i]);
    }
  }

  lemma OrOfXor(diff: bv8, x: bv8, y: bv8)
    ensures diff | (x ^ y) == 0 <==> diff == 0 && x == y
  {
  }

  // OR of XORs: zero exactly when every byte agrees.
  method ConstantTimeEqBytes(a: seq<bv8>, b: seq<bv8>) returns (eq: bool)
    ensures eq <==> a == b
  {
    if |a| != |b| {
      return false;
    }
    var diff: bv8 := 0;
    for i := 0 to |a|
      invariant diff == 0 <==> a[..i] == b[..i]
    {
      OrOfXor(diff, a[i], b[i]);
      assert a[..i + 1] == a[..i] + [a[i]] && b[..i + 1] == b[..i] + [b[i]];
      diff := diff | (a[i] ^ b[i]);
    }
    assert a[..|a|] == a && b[..|b|] == b;
    eq := diff == 0;
  }

  method ConstantTimeEq(a: string, b: string) returns (eq: bool)
    ensures eq <==> a == b
  {
    eq := ConstantTimeEqBytes(ToBits(Utf8.Encode(a)), ToBits(Utf8.Encode(b)));
    if eq {
      ToBitsInjective(Utf8.Encode(a), Utf8.Encode(b));
      Utf8.Injective(a, b);
    }
  }

  // ---------- text ----------

  // Unicode White_Space, as `char::is_whitespace` has it.
  predicate IsSpace(c: char) {
    var n := c as int;
    0x09 <= n <= 0x0D || n == 0x20 || n == 0x85 || n == 0xA0 || n == 0x1680 || 0x2000 <= n <= 0x200A
    || n == 0x2028 || n == 0x2029 || n == 0x202F || n == 0x205F || n == 0x3000
  }

  function SkipSpace(s: string): (r: string)
    ensures |r| <= |s| && (r == "" || !IsSpace(r[0]))
  {
    if s == "" || !IsSpace(s[0]) then s else SkipSpace(s[1..])
  }

  function FirstWord(s: string): (word: string)
    ensures word <= s && forall c | c in word :: !IsSpace(c)
  {
    if s == "" || IsSpace(s[0]) then "" else [s[0]] + FirstWord(s[1..])
  }

  // `split_whitespace().nth(1)`
  function SecondWord(s: string): (word: Option<string>) {
    var body := SkipSpace(s);
    var rest := SkipSpace(body[|FirstWord(body)|..]);
    if rest == "" then None else Some(FirstWord(rest))
  }

  // `lines().next()`: up to the first newline, without a carriage return before it.
  function FirstLine(s: string): (line: string) {
    var line := UpToNewline(s);
    if |line| < |s| && line != "" && line[|line| - 1] == '\r' then line[..|line| - 1] else line
  }

  function UpToNewline(s: string): (line: string)
    ensures line <= s && '\n' !in line
  {
    if s == "" || s[0] == '\n' then "" else [s[0]] + UpToNewline(s[1..])
  }

  // White space is these characters.
  lemma SpacesExactly(c: char)
    ensures IsSpace(c) <==>
      c as int in {
        0x9, 0xA, 0xB, 0xC, 0xD, 0x20, 0x85, 0xA0, 0x1680, 0x2000, 0x2001, 0x2002, 0x2003, 0x2004, 0x2005, 0x2006,
        0x2007, 0x2008, 0x2009, 0x200A, 0x2028, 0x2029, 0x202F, 0x205F, 0x3000}
  {
  }

  predicate AllSpace(s: string) {
    forall i | 0 <= i < |s| :: IsSpace(s[i])
  }

  predicate IsWord(s: string) {
    s != "" && forall i | 0 <= i < |s| :: !IsSpace(s[i])
  }

  predicate EndsAWord(rest: string) {
    rest == "" || IsSpace(rest[0])
  }

  lemma {:induction false} SkipsTheSpace(lead: string, s: string)
    requires AllSpace(lead) && (s == "" || !IsSpace(s[0]))
    ensures SkipSpace(lead + s) == s
  {
    if lead == "" {
      assert lead + s == s;
    } else {
      SkipsTheSpace(lead[1..], s);
      assert (lead + s)[0] == lead[0] && (lead + s)[1..] == lead[1..] + s;
    }
  }

  lemma {:induction false} TakesTheWord(word: string, rest: string)
    requires (forall i | 0 <= i < |word| :: !IsSpace(word[i])) && EndsAWord(rest)
    ensures FirstWord(word + rest) == word
  {
    if word == "" {
      assert word + rest == rest;
    } else {
      TakesTheWord(word[1..], rest);
      assert (word + rest)[0] == word[0] && (word + rest)[1..] == word[1..] + rest;
      assert word == [word[0]] + word[1..];
    }
  }

  // The target of a request line is its second word: after `a`, white space and before the next white
  // space or the end, whatever white space comes first.
  lemma SecondWordIsTheSecond(lead: string, a: string, gap: string, b: string, rest: string)
    requires AllSpace(lead) && IsWord(a) && gap != "" && AllSpace(gap) && IsWord(b) && EndsAWord(rest)
    ensures SecondWord(lead + a + gap + b + rest) == Some(b)
  {
    var tail := gap + (b + rest);
    assert lead + a + gap + b + rest == lead + (a + tail);
    assert (b + rest)[0] == b[0] && (a + tail)[0] == a[0] && tail[0] == gap[0];
    SkipsTheSpace(lead, a + tail);
    TakesTheWord(a, tail);
    assert (a + tail)[|a|..] == tail;
    SkipsTheSpace(gap, b + rest);
    TakesTheWord(b, rest);
  }

  // The line has two words: white space somewhere between two characters that are none.
  ghost predicate HasTwoWords(s: string) {
    exists i, j, k | 0 <= i < j < k < |s| :: !IsSpace(s[i]) && IsSpace(s[j]) && !IsSpace(s[k])
  }

  lemma {:induction false} AfterSpace(s: string) returns (n: nat)
    ensures n <= |s| && SkipSpace(s) == s[n..] && AllSpace(s[..n])
  {
    n := 0;
    if s != "" && IsSpace(s[0]) {
      var m := AfterSpace(s[1..]);
      n := m + 1;
      assert s[1..][m..] == s[n..];
      forall i | 0 <= i < n ensures IsSpace(s[..n][i]) {
        if i > 0 {
          assert s[..n][i] == s[1..][..m][i - 1];
        }
      }
    }
  }

  lemma {:induction false} WordEnds(s: string)
    ensures |FirstWord(s)| <= |s| && EndsAWord(s[|FirstWord(s)|..])
  {
    if s != "" && !IsSpace(s[0]) {
      WordEnds(s[1..]);
      assert s[1..][|FirstWord(s[1..])|..] == s[|FirstWord(s)|..];
    }
  }

  // The first word of the line is `s[lead..end]`, the second starts at `next` if it starts at all.
  lemma Layout(s: string) returns (lead: nat, end: nat, next: nat)
    ensures lead <= end <= next <= |s|
    ensures forall i | 0 <= i < lead :: IsSpace(s[i])
    ensures forall i | lead <= i < end :: !IsSpace(s[i])
    ensures forall i | end <= i < next :: IsSpace(s[i])
    ensures lead < |s| ==> lead < end
    ensures end < |s| ==> end < next
    ensures next < |s| ==> !IsSpace(s[next])
    ensures SecondWord(s) == None <==> next == |s|
  {
    lead := AfterSpace(s);
    var body := s[lead..];
    end := lead + |FirstWord(body)|;
    WordEnds(body);
    var behind := s[end..];
    assert body[|FirstWord(body)|..] == behind;
    var gap := AfterSpace(behind);
    next := end + gap;
    assert behind[gap..] == s[next..];
    forall i | 0 <= i < lead ensures IsSpace(s[i]) {
      assert s[..lead][i] == s[i];
    }
    forall i | lead <= i < end ensures !IsSpace(s[i]) {
      assert s[i] == body[i - lead] == FirstWord(body)[i - lead];
      assert s[i] in FirstWord(body);
    }
    forall i | end <= i < next ensures IsSpace(s[i]) {
      assert behind[..gap][i - end] == s[i];
    }
  }

  lemma SecondWordMissingExactlyWhen(s: string)
    ensures SecondWord(s) == None <==> !HasTwoWords(s)
  {
    var lead, end, next := Layout(s);
    if next < |s| {
      assert !IsSpace(s[lead]) && IsSpace(s[end]) && !IsSpace(s[next]);
    }
  }

  lemma {:induction false} StopsAtNewline(line: string, rest: string)
    requires '\n' !in line
    ensures UpToNewline(line) == line && UpToNewline(line + "\n" + rest) == line
  {
    if line == "" {
      assert line + "\n" + rest == "\n" + rest;
    } else {
      StopsAtNewline(line[1..], rest);
      assert (line + "\n" + rest)[0] == line[0] && (line + "\n" + rest)[1..] == line[1..] + "\n" + rest;
      assert line == [line[0]] + line[1..];
    }
  }

  // The first line is the text up to the first newline, without one carriage return before it; without a
  // newline it is all of the text.
  lemma FirstLineIsTheFirst(line: string, rest: string)
    requires '\n' !in line
    ensures FirstLine(line) == line
    ensures FirstLine(line + "\r\n" + rest) == line
    ensures line == "" || line[|line| - 1] != '\r' ==> FirstLine(line + "\n" + rest) == line
  {
    StopsAtNewline(line, rest);
    StopsAtNewline(line + "\r", rest);
    assert line + "\r\n" + rest == line + "\r" + "\n" + rest;
    assert (line + "\r")[..|line|] == line;
  }

  // ---------- one redirect ----------

  // What the URL library makes of `http://127.0.0.1` followed by the request target: its path and its
  // decoded query pairs, or nothing when it does not parse.
  datatype Url = Url(path: string, pairs: seq<(string, string)>)

  datatype Rejection =
    | MalformedRequest
    | MalformedUrl
    | UnexpectedPath(path: string)
    | NoState
    | StateMismatch
    | AuthorizationError(error: string)
    | NoCode
    | EmptyCode

  datatype Outcome = Code(code: string) | Rejected(reason: Rejection)

  // The value of the last pair with this key.
  function Last(pairs: seq<(string, string)>, key: string): (value: Option<string>) {
    if pairs == [] then None
    else
      var (k, v) := pairs[|pairs| - 1];
      if k == key then Some(v) else Last(pairs[..|pairs| - 1], key)
  }

  function Judge(url: Url, expected: string): (o: Outcome) {
    var state := Last(url.pairs, "state");
    var error := Last(url.pairs, "error");
    var code := Last(url.pairs, "code");
    if url.path != "/" then Rejected(UnexpectedPath(url.path))
    else if state.None? then Rejected(NoState)
    else if state.value != expected then Rejected(StateMismatch)
    else if error.Some? then Rejected(AuthorizationError(error.value))
    else if code.None? then Rejected(NoCode)
    else if code.value == "" then Rejected(EmptyCode)
    else Code(code.value)
  }

  function Parse(line: string, expected: string, parseUrl: string -> Option<Url>): (o: Outcome) {
    var target := SecondWord(line);
    if target.None? then Rejected(MalformedRequest)
    else if parseUrl(target.value).None? then Rejected(MalformedUrl)
    else Judge(parseUrl(target.value).value, expected)
  }

  method ParseRedirectRequest(line: string, expected: string, parseUrl: string -> Option<Url>) returns (o: Outcome)
    ensures o == Parse(line, expected, parseUrl)
  {
    var target := SecondWord(line);
    if target.None? {
      return Rejected(MalformedRequest);
    }
    var parsed := parseUrl(target.value);
    if parsed.None? {
      return Rejected(MalformedUrl);
    }
    var url := parsed.value;
    if url.path != "/" {
      return Rejected(UnexpectedPath(url.path));
    }
    var code: Option<string>, state: Option<string>, error: Option<string> := None, None, None;
    for i := 0 to |url.pairs|
      invariant code == Last(url.pairs[..i], "code")
      invariant state == Last(url.pairs[..i], "state")
      invariant error == Last(url.pairs[..i], "error")
    {
      assert url.pairs[..i + 1][..i] == url.pairs[..i];
      var (key, value) := url.pairs[i];
      match key
      case "code" => code := Some(value);
      case "state" => state := Some(value);
      case "error" => error := Some(value);
      case _ =>
    }
    assert url.pairs[..|url.pairs|] == url.pairs;
    if state.None? {
      return Rejected(NoState);
    }
    var same := ConstantTimeEq(state.value, expected);
    if !same {
      return Rejected(StateMismatch);
    }
    if error.Some? {
      return Rejected(AuthorizationError(error.value));
    }
    if code.None? {
      return Rejected(NoCode);
    }
    o := if code.value == "" then Rejected(EmptyCode) else Code(code.value);
  }

  // `at` holds the last pair with this key.
  predicate LastAt(pairs: seq<(string, string)>, key: string, at: nat) {
    at < |pairs| && pairs[at].0 == key && forall j | at < j < |pairs| :: pairs[j].0 != key
  }

  lemma {:induction false} LastIsLast(pairs: seq<(string, string)>, key: string)
    ensures Last(pairs, key).None? <==> forall i | 0 <= i < |pairs| :: pairs[i].0 != key
    ensures forall at: nat | LastAt(pairs, key, at) :: Last(pairs, key) == Some(pairs[at].1)
    ensures Last(pairs, key).Some? ==> exists at: nat :: LastAt(pairs, key, at)
  {
    if pairs == [] {
    } else if pairs[|pairs| - 1].0 == key {
      assert LastAt(pairs, key, |pairs| - 1);
    } else {
      var front := pairs[..|pairs| - 1];
      LastIsLast(front, key);
      if Last(front, key).Some? {
        var at: nat :| LastAt(front, key, at);
        assert LastAt(pairs, key, at);
      }
      forall at: nat | LastAt(pairs, key, at)
        ensures LastAt(front, key, at)
      {
      }
    }
  }

  // A request line is accepted with code `c` exactly when its target parses, the path is `/`, no pair is
  // an error, the last state is the expected one, and the last code is `c` and not empty.
  lemma AcceptedExactlyWhen(line: string, expected: string, parseUrl: string -> Option<Url>, c: string)
    ensures Parse(line, expected, parseUrl) == Code(c) <==>
      && SecondWord(line).Some? && parseUrl(SecondWord(line).value).Some?
      && var url := parseUrl(SecondWord(line).value).value;
      && url.path == "/"
      && (forall i | 0 <= i < |url.pairs| :: url.pairs[i].0 != "error")
      && (exists s: nat :: LastAt(url.pairs, "state", s) && url.pairs[s].1 == expected)
      && (exists a: nat :: LastAt(url.pairs, "code", a) && url.pairs[a].1 == c)
      && c != ""
  {
    if SecondWord(line).Some? && parseUrl(SecondWord(line).value).Some? {
      var pairs := parseUrl(SecondWord(line).value).value.pairs;
      LastIsLast(pairs, "error");
      LastIsLast(pairs, "state");
      LastIsLast(pairs, "code");
    }
  }

  // Every rejection, in the order in which the checks are made.
  lemma RejectedCaseByCase(line: string, expected: string, parseUrl: string -> Option<Url>)
    ensures
      var o := Parse(line, expected, parseUrl);
      && (SecondWord(line).None? ==> o == Rejected(MalformedRequest))
      && (SecondWord(line).Some? ==>
            var url := parseUrl(SecondWord(line).value);
            && (url.None? ==> o == Rejected(MalformedUrl))
            && (url.Some? ==>
                  var u := url.value;
                  var state, error, code := Last(u.pairs, "state"), Last(u.pairs, "error"), Last(u.pairs, "code");
                  var stateIsRight := u.path == "/" && state == Some(expected);
                  && (u.path != "/" ==> o == Rejected(UnexpectedPath(u.path)))
                  && (u.path == "/" && state.None? ==> o == Rejected(NoState))
                  && (u.path == "/" && state.Some? && state.value != expected ==> o == Rejected(StateMismatch))
                  && (stateIsRight && error.Some? ==> o == Rejected(AuthorizationError(error.value)))
                  && (stateIsRight && error.None? && code.None? ==> o == Rejected(NoCode))
                  && (stateIsRight && error.None? && code == Some("") ==> o == Rejected(EmptyCode))))
  {
  }

  // Without the expected state, a redirect is not even heard when it reports an error.
  lemma ForgedErrorIsAStateProblem(url: Url, expected: string)
    requires url.path == "/" && Last(url.pairs, "state") != Some(expected)
    ensures Judge(url, expected) in {Rejected(NoState), Rejected(StateMismatch)}
  {
  }

  // ---------- the wait ----------

  // One turn of the accept loop. `Sends` carries what one read brought, decoded leniently; a peer that
  // closed or whose read failed sent "".
  datatype Connection = AcceptFails | Silent | Sends(text: string)

  datatype Reply = NoReply | SignedIn | BadRequest | NotFound

  datatype Wait = StillWaiting | ListenerLost | Finished(outcome: Outcome)

  predicate LooksLikeRedirect(line: string) {
    Contains(line, "code=") || Contains(line, "error=")
  }

  predicate IsStray(c: Connection, expected: string, parseUrl: string -> Option<Url>) {
    c.Silent? ||
    (c.Sends? && Parse(FirstLine(c.text), expected, parseUrl).Rejected? && !LooksLikeRedirect(FirstLine(c.text)))
  }

  function ReplyTo(c: Connection, expected: string, parseUrl: string -> Option<Url>): (r: Reply) {
    if !c.Sends? then NoReply
    else if Parse(FirstLine(c.text), expected, parseUrl).Code? then SignedIn
    else if LooksLikeRedirect(FirstLine(c.text)) then BadRequest
    else NotFound
  }

  // What a connection that is not stray ends the wait with.
  function EndOf(c: Connection, expected: string, parseUrl: string -> Option<Url>): (w: Wait)
    requires !c.Silent?
  {
    if c.AcceptFails? then ListenerLost else Finished(Parse(FirstLine(c.text), expected, parseUrl))
  }

  function WaitOn(conns: seq<Connection>, expected: string, parseUrl: string -> Option<Url>): (w: Wait) {
    if conns == [] then StillWaiting
    else if IsStray(conns[0], expected, parseUrl) then WaitOn(conns[1..], expected, parseUrl)
    else EndOf(conns[0], expected, parseUrl)
  }

  // One round of the accept loop: the answer the connection gets, and what it ends the wait with, if it
  // does.
  method Serve(c: Connection, expected: string, parseUrl: string -> Option<Url>) returns (reply: Reply, ended: Option<Wait>)
    ensures reply == ReplyTo(c, expected, parseUrl)
    ensures ended == if IsStray(c, expected, parseUrl) then None else Some(EndOf(c, expected, parseUrl))
  {
    match c
    case AcceptFails =>
      return NoReply, Some(ListenerLost);
    case Silent =>
      return NoReply, None;
    case Sends(text) =>
      var line := FirstLine(text);
      var outcome := ParseRedirectRequest(line, expected, parseUrl);
      if outcome.Code? {
        return SignedIn, Some(Finished(outcome));
      } else if LooksLikeRedirect(line) {
        return BadRequest, Some(Finished(outcome));
      } else {
        return NotFound, None;
      }
  }

  // Each connection's answer and what the wait makes of it, case by case.
  lemma ConnectionCaseByCase(c: Connection, rest: seq<Connection>, expected: string, parseUrl: string -> Option<Url>)
    ensures
      var reply, wait := ReplyTo(c, expected, parseUrl), WaitOn([c] + rest, expected, parseUrl);
      && (c.AcceptFails? ==> reply == NoReply && wait == ListenerLost)
      && (c.Silent? ==> reply == NoReply && wait == WaitOn(rest, expected, parseUrl))
      && (c.Sends? ==>
            var line := FirstLine(c.text);
            var o := Parse(line, expected, parseUrl);
            var looks := Contains(line, "code=") || Contains(line, "error=");
            && (o.Code? ==> reply == SignedIn && wait == Finished(o))
            && (o.Rejected? && looks ==> reply == BadRequest && wait == Finished(o))
            && (o.Rejected? && !looks ==> reply == NotFound && wait == WaitOn(rest, expected, parseUrl)))
    ensures WaitOn([], expected, parseUrl) == StillWaiting
  {
    assert ([c] + rest)[1..] == rest;
  }

  // The connections so far got these replies, in order.
  predicate Answers(replies: seq<Reply>, conns: seq<Connection>, expected: string, parseUrl: string -> Option<Url>) {
    |replies| <= |conns| && forall i | 0 <= i < |replies| :: replies[i] == ReplyTo(conns[i], expected, parseUrl)
  }

  lemma OneMoreAnswer(replies: seq<Reply>, reply: Reply, conns: seq<Connection>, expected: string, parseUrl: string -> Option<Url>)
    requires Answers(replies, conns, expected, parseUrl) && |replies| < |conns|
    requires reply == ReplyTo(conns[|replies|], expected, parseUrl)
    ensures Answers(replies + [reply], conns, expected, parseUrl)
  {
  }

  // The accept loop over the connections that arrive, with the answer each of them got.
  method AwaitRedirectCode(conns: seq<Connection>, expected: string, parseUrl: string -> Option<Url>)
      returns (w: Wait, replies: seq<Reply>)
    ensures w == WaitOn(conns, expected, parseUrl)
    ensures Answers(replies, conns, expected, parseUrl)
    ensures w.StillWaiting? ==> |replies| == |conns|
    ensures !w.StillWaiting? ==> 0 < |replies| && !IsStray(conns[|replies| - 1], expected, parseUrl)
  {
    replies := [];
    for i := 0 to |conns|
      invariant |replies| == i && Answers(replies, conns, expected, parseUrl)
      invariant WaitOn(conns, expected, parseUrl) == WaitOn(conns[i..], expected, parseUrl)
    {
      assert conns[i..][0] == conns[i] && conns[i..][1..] == conns[i + 1..];
      var reply, ended := Serve(conns[i], expected, parseUrl);
      OneMoreAnswer(replies, reply, conns, expected, parseUrl);
      replies := replies + [reply];
      if ended.Some? {
        return ended.value, replies;
      }
    }
    w := StillWaiting;
  }

  // `at` is the first connection that is not stray.
  predicate FirstReal(conns: seq<Connection>, expected: string, parseUrl: string -> Option<Url>, at: nat) {
    && at < |conns| && !IsStray(conns[at], expected, parseUrl)
    && forall j | 0 <= j < at :: IsStray(conns[j], expected, parseUrl)
  }

  // The wait ends at the first connection that is not stray and with that connection's outcome; strays,
  // however many, never end it.
  lemma {:induction false} WaitEndsAtFirstReal(conns: seq<Connection>, expected: string, parseUrl: string -> Option<Url>)
    ensures WaitOn(conns, expected, parseUrl).StillWaiting? <==> forall i | 0 <= i < |conns| :: IsStray(conns[i], expected, parseUrl)
    ensures forall at: nat | FirstReal(conns, expected, parseUrl, at) ::
      WaitOn(conns, expected, parseUrl) == EndOf(conns[at], expected, parseUrl)
    ensures !WaitOn(conns, expected, parseUrl).StillWaiting? ==> exists at: nat :: FirstReal(conns, expected, parseUrl, at)
  {
    if conns == [] {
    } else if !IsStray(conns[0], expected, parseUrl) {
      assert FirstReal(conns, expected, parseUrl, 0);
    } else {
      var tail := conns[1..];
      WaitEndsAtFirstReal(tail, expected, parseUrl);
      forall at: nat | FirstReal(conns, expected, parseUrl, at)
        ensures at > 0 && FirstReal(tail, expected, parseUrl, at - 1)
      {
      }
      if at: nat :| FirstReal(tail, expected, parseUrl, at) {
        assert FirstReal(conns, expected, parseUrl, at + 1);
      }
    }
  }

  // A redirect rejected for its state is answered and, if its line contains `code=` or `error=`, ends the
  // wait all the same: checking the state first decides the error, not whether the sign-in goes on.
  lemma RejectedForItsStateEndsTheWaitExactlyWhen(
      c: Connection, rest: seq<Connection>, expected: string, parseUrl: string -> Option<Url>)
    requires c.Sends? && Parse(FirstLine(c.text), expected, parseUrl) in {Rejected(NoState), Rejected(StateMismatch)}
    ensures
      WaitOn([c] + rest, expected, parseUrl) ==
        if LooksLikeRedirect(FirstLine(c.text)) then Finished(Parse(FirstLine(c.text), expected, parseUrl))
        else WaitOn(rest, expected, parseUrl)
    ensures !IsStray(c, expected, parseUrl) <==> Contains(FirstLine(c.text), "code=") || Contains(FirstLine(c.text), "error=")
  {
    assert ([c] + rest)[1..] == rest;
  }

  // The code comes back exactly when the first connection that is not stray is a valid redirect carrying it.
  lemma CodeExactlyWhen(conns: seq<Connection>, expected: string, parseUrl: string -> Option<Url>, c: string)
    ensures WaitOn(conns, expected, parseUrl) == Finished(Code(c)) <==>
      exists at: nat ::
        FirstReal(conns, expected, parseUrl, at) && conns[at].Sends? &&
        Parse(FirstLine(conns[at].text), expected, parseUrl) == Code(c)
  {
    WaitEndsAtFirstReal(conns, expected, parseUrl);
  }
}
