/**
 * Decoder of the text (stream) REPLY, MSG and ERR lines: the whole line is
 * first checked against the message's pattern, then split on single spaces
 * and fixed tokens are picked out.
 *
 * The patterns are written out as predicates. A pattern ends in CRLF
 * followed by `$`, which in .NET matches at the very end of the input and
 * also just before a final line feed, so a line may end in "\r\n" or in
 * "\r\n\n".
 */
module TcpMessageParser {
  import opened Common
  import opened Text
  import opened TcpMessageGenerator

  datatype TcpReply = TcpReply(result: bool, messageContents: string)

  datatype TcpMsg = TcpMsg(displayName: string, messageContents: string)

  /** `[\x20-\x7E]{1,1400}`: message contents. */
  predicate IsContent(c: string) {
    1 <= |c| <= 1400 && forall i :: 0 <= i < |c| ==> ' ' <= c[i] <= '~'
  }

  /** `[\x21-\x7E]{1,20}`: a display name. */
  predicate IsDisplayName(d: string) {
    1 <= |d| <= 20 && forall i :: 0 <= i < |d| ==> '!' <= d[i] <= '~'
  }

  /** The line without the line end `\r\n$` accepts; None when it has no such end. */
  function LineBody(m: string): (r: Option<string>)
    ensures r.Some? ==> (m == r.value + "\r\n" || m == r.value + "\r\n\n")
  {
    if |m| >= 3 && m[|m| - 3..] == "\r\n\n" then Some(m[..|m| - 3])
    else if |m| >= 2 && m[|m| - 2..] == "\r\n" then Some(m[..|m| - 2])
    else None
  }

  /** `REPLY (OK|NOK) IS [\x20-\x7E]{1,1400}` on the line body. */
  predicate IsReplyBody(b: string) {
    ("REPLY OK IS " <= b && IsContent(b[12..])) || ("REPLY NOK IS " <= b && IsContent(b[13..]))
  }

  /**
   * `<kw> FROM [\x21-\x7E]{1,20} IS [\x20-\x7E]{1,1400}` on the line body.
   * The display name holds no space, so it is the text up to the first
   * space after the keyword and "FROM".
   */
  predicate IsFromBody(kw: string, b: string) {
    var p := kw + " FROM ";
    p <= b &&
    var r := b[|p|..];
    var d := UpTo(r, ' ');
    IsDisplayName(d) && |d| + 4 <= |r| && r[|d|..|d| + 4] == " IS " && IsContent(r[|d| + 4..])
  }

  predicate MatchesReply(m: string) {
    LineBody(m).Some? && IsReplyBody(LineBody(m).value)
  }

  predicate MatchesFrom(kw: string, m: string) {
    LineBody(m).Some? && IsFromBody(kw, LineBody(m).value)
  }

  function ParseReplyMessage(message: string): (r: Result<TcpReply>)
    ensures r.Failure? <==> !MatchesReply(message)
    ensures r.Failure? ==> r.error == InvalidMessageFormat
    ensures r.Success? && "REPLY OK IS " <= message ==> r.value == TcpReply(true, UpTo(message[12..], ' '))
    ensures r.Success? && "REPLY NOK IS " <= message ==> r.value == TcpReply(false, UpTo(message[13..], ' '))
  {
    if !MatchesReply(message) then Failure(InvalidMessageFormat)
    else
      ReplyParts(message);
      var messageParts := Split(message, ' ');
      Success(TcpReply(messageParts[1] == "OK", messageParts[3]))
  }

  function ParseMsgMessage(message: string): (r: Result<TcpMsg>)
    ensures r.Failure? <==> !MatchesFrom("MSG", message)
    ensures r.Failure? ==> r.error == InvalidMessageFormat
    ensures r.Success? ==> r.value.displayName == UpTo(message[9..], ' ')
    ensures r.Success? ==> r.value.messageContents == UpTo(message[13 + |r.value.displayName|..], ' ')
  {
    ParseFromLine("MSG", message)
  }

  function ParseErrMessage(message: string): (r: Result<TcpMsg>)
    ensures r.Failure? <==> !MatchesFrom("ERR", message)
    ensures r.Failure? ==> r.error == InvalidMessageFormat
    ensures r.Success? ==> r.value.displayName == UpTo(message[9..], ' ')
    ensures r.Success? ==> r.value.messageContents == UpTo(message[13 + |r.value.displayName|..], ' ')
  {
    ParseFromLine("ERR", message)
  }

  /**
   * The decoding MSG and ERR share, for the keyword `kw`: the line is checked
   * against the pattern, split on spaces, and the third and fifth tokens are
   * the display name and the contents.
   */
  function ParseFromLine(kw: string, message: string): (r: Result<TcpMsg>)
    requires |kw| == 3 && ' ' !in kw
    ensures r.Failure? <==> !MatchesFrom(kw, message)
    ensures r.Failure? ==> r.error == InvalidMessageFormat
    ensures r.Success? ==> |message| >= 13 + |r.value.displayName|
    ensures r.Success? ==> r.value.displayName == UpTo(message[9..], ' ')
    ensures r.Success? ==> r.value.messageContents == UpTo(message[13 + |r.value.displayName|..], ' ')
  {
    if !MatchesFrom(kw, message) then Failure(InvalidMessageFormat)
    else
      FromParts(kw, message);
      var messageParts := Split(message, ' ');
      Success(TcpMsg(messageParts[2], messageParts[4]))
  }

  /** Three leading words without spaces split off one by one. */
  lemma {:induction false} SplitThreeWords(a: string, b: string, c: string, rest: string)
    requires ' ' !in a && ' ' !in b && ' ' !in c
    ensures Split(a + " " + b + " " + c + " " + rest, ' ') == [a, b, c] + Split(rest, ' ')
  {
    assert a + " " + b + " " + c + " " + rest == a + [' '] + (b + [' '] + (c + [' '] + rest));
    SplitAt(a, b + [' '] + (c + [' '] + rest), ' ');
    SplitAt(b, c + [' '] + rest, ' ');
    SplitAt(c, rest, ' ');
  }

  /** The tokens of a line that starts as a REPLY with the given result word. */
  lemma {:induction false} ReplyTokens(m: string, result: string)
    requires result == "OK" || result == "NOK"
    requires "REPLY " + result + " IS " <= m
    ensures |Split(m, ' ')| >= 4 && Split(m, ' ')[1] == result
    ensures Split(m, ' ')[3] == UpTo(m[|result| + 10..], ' ')
  {
    assert "REPLY" + " " + result + " " + "IS" + " " == "REPLY " + result + " IS ";
    assert ' ' !in "REPLY" && ' ' !in "IS";
    ThreeWordTokens(m, "REPLY", result, "IS");
  }

  /** The tokens of a line that starts with three words, each followed by one space. */
  lemma {:induction false} ThreeWordTokens(m: string, a: string, b: string, c: string)
    requires ' ' !in a && ' ' !in b && ' ' !in c
    requires a + " " + b + " " + c + " " <= m
    ensures |Split(m, ' ')| >= 4 && Split(m, ' ')[1] == b
    ensures Split(m, ' ')[3] == UpTo(m[|a| + |b| + |c| + 3..], ' ')
  {
    var p := a + " " + b + " " + c + " ";
    var rest := m[|p|..];
    assert m == p + rest;
    SplitThreeWords(a, b, c, rest);
    SplitHead(rest, ' ');
  }

  /** The space-separated tokens of a line that matches the REPLY pattern. */
  lemma {:induction false} ReplyParts(m: string)
    requires MatchesReply(m)
    ensures |Split(m, ' ')| >= 4
    ensures "REPLY OK IS " <= m ==> Split(m, ' ')[1] == "OK" && Split(m, ' ')[3] == UpTo(m[12..], ' ')
    ensures "REPLY NOK IS " <= m ==> Split(m, ' ')[1] == "NOK" && Split(m, ' ')[3] == UpTo(m[13..], ' ')
  {
    var b := LineBody(m).value;
    if "REPLY OK IS " <= b {
      PrefixTrans("REPLY OK IS ", b, m);
    } else {
      PrefixTrans("REPLY NOK IS ", b, m);
    }
    ReplyOkTokens(m);
    ReplyNokTokens(m);
  }

  lemma ReplyOkTokens(m: string)
    ensures "REPLY OK IS " <= m ==> |Split(m, ' ')| >= 4 && Split(m, ' ')[1] == "OK" && Split(m, ' ')[3] == UpTo(m[12..], ' ')
  {
    if "REPLY OK IS " <= m {
      assert "REPLY " + "OK" + " IS " == "REPLY OK IS ";
      ReplyTokens(m, "OK");
    }
  }

  lemma ReplyNokTokens(m: string)
    ensures "REPLY NOK IS " <= m ==> |Split(m, ' ')| >= 4 && Split(m, ' ')[1] == "NOK" && Split(m, ' ')[3] == UpTo(m[13..], ' ')
  {
    if "REPLY NOK IS " <= m {
      assert "REPLY " + "NOK" + " IS " == "REPLY NOK IS ";
      ReplyTokens(m, "NOK");
    }
  }

  /** A prefix of a prefix is a prefix. */
  lemma PrefixTrans<T>(p: seq<T>, b: seq<T>, m: seq<T>)
    requires p <= b && b <= m
    ensures p <= m
  {
  }

  /** The tokens of a line that starts with a keyword, FROM, a name without spaces and IS. */
  lemma {:induction false} FromTokens(m: string, kw: string, d: string)
    requires |kw| == 3 && ' ' !in kw && ' ' !in d
    requires kw + " FROM " + d + " IS " <= m
    ensures |Split(m, ' ')| >= 5 && Split(m, ' ')[2] == d
    ensures Split(m, ' ')[4] == UpTo(m[13 + |d|..], ' ')
  {
    var rest := m[13 + |d|..];
    assert m == kw + " " + "FROM" + " " + d + " " + ("IS" + " " + rest);
    assert ' ' !in "FROM" && ' ' !in "IS";
    SplitThreeWords(kw, "FROM", d, "IS" + " " + rest);
    assert "IS" + " " + rest == "IS" + [' '] + rest;
    SplitAt("IS", rest, ' ');
    SplitHead(rest, ' ');
  }

  /** The space-separated tokens of a line that matches a MSG or ERR pattern. */
  lemma {:induction false} FromParts(kw: string, m: string)
    requires |kw| == 3 && ' ' !in kw && MatchesFrom(kw, m)
    ensures |m| >= 13 + |UpTo(m[9..], ' ')|
    ensures |Split(m, ' ')| >= 5
    ensures Split(m, ' ')[2] == UpTo(m[9..], ' ')
    ensures Split(m, ' ')[4] == UpTo(m[13 + |UpTo(m[9..], ' ')|..], ' ')
  {
    var d := FromName(kw, m);
    FromTokens(m, kw, d);
  }

  /** The display name of a line that matches a MSG or ERR pattern, with the prefix it ends. */
  lemma {:induction false} FromName(kw: string, m: string) returns (d: string)
    requires |kw| == 3 && MatchesFrom(kw, m)
    ensures ' ' !in d && d == UpTo(m[9..], ' ')
    ensures kw + " FROM " + d + " IS " <= m
  {
    var b := LineBody(m).value;
    d := BodyName(kw, b);
    var t := m[|b|..];
    assert m == b + t;
    ExtendName(kw, b, t, d);
  }

  /** The display name of a body that matches a MSG or ERR pattern. */
  lemma {:induction false} BodyName(kw: string, b: string) returns (d: string)
    requires |kw| == 3 && IsFromBody(kw, b)
    ensures ' ' !in d && 13 + |d| <= |b| && d == UpTo(b[9..], ' ')
    ensures kw + " FROM " + d + " IS " <= b
  {
    var r := b[9..];
    d := UpTo(r, ' ');
    assert " IS " <= r[|d|..];
    PrefixConcat(d, " IS ", r);
    PrefixConcat(kw + " FROM ", d + " IS ", b);
    assert kw + " FROM " + (d + " IS ") == kw + " FROM " + d + " IS ";
  }

  /** A prefix followed by a prefix of what remains is a prefix. */
  lemma PrefixConcat<T>(x: seq<T>, y: seq<T>, s: seq<T>)
    requires x <= s && y <= s[|x|..]
    ensures x + y <= s
  {
    assert s[..|x| + |y|] == x + y;
  }

  /** Text after the body leaves the display name and the prefix before it in place. */
  lemma {:induction false} ExtendName(kw: string, b: string, t: string, d: string)
    requires 13 + |d| <= |b| && d == UpTo(b[9..], ' ') && kw + " FROM " + d + " IS " <= b
    ensures d == UpTo((b + t)[9..], ' ')
    ensures kw + " FROM " + d + " IS " <= b + t
  {
    assert (b + t)[9..] == b[9..] + t;
    UpToExtend(b[9..], t, ' ');
  }

  /** Text appended after a separator leaves what comes before it unchanged. */
  lemma {:induction false} UpToExtend(r: string, tail: string, sep: char)
    requires |UpTo(r, sep)| < |r|
    ensures UpTo(r + tail, sep) == UpTo(r, sep)
  {
    var k := |UpTo(r, sep)|;
    assert r + tail == r[..k] + [sep] + (r[k + 1..] + tail);
    assert r[..k] == UpTo(r, sep);
    SplitHead(r + tail, sep);
    SplitAt(r[..k], r[k + 1..] + tail, sep);
  }

  /**
   * MSG round trip: a line generated from a valid display name and contents
   * parses back to that display name and to the first word of the contents
   * (the whole contents plus the CRLF when they hold no space).
   */
  lemma {:induction false} MsgRoundTrip(displayName: string, contents: string)
    requires IsDisplayName(displayName) && IsContent(contents)
    ensures ParseMsgMessage(GenerateMsgMessage(displayName, contents))
            == Success(TcpMsg(displayName, UpTo(contents + "\r\n", ' ')))
    ensures ' ' !in contents ==> UpTo(contents + "\r\n", ' ') == contents + "\r\n"
    ensures ' ' in contents ==> UpTo(contents + "\r\n", ' ') == UpTo(contents, ' ')
  {
    assert GenerateMsgMessage(displayName, contents) == "MSG" + " FROM " + displayName + " IS " + contents + "\r\n";
    FromRoundTrip("MSG", displayName, contents);
    ContentWord(contents);
  }

  /** The same round trip for ERR lines. */
  lemma {:induction false} ErrRoundTrip(displayName: string, contents: string)
    requires IsDisplayName(displayName) && IsContent(contents)
    ensures ParseErrMessage(GenerateErrMessage(displayName, contents))
            == Success(TcpMsg(displayName, UpTo(contents + "\r\n", ' ')))
  {
    assert GenerateErrMessage(displayName, contents) == "ERR" + " FROM " + displayName + " IS " + contents + "\r\n";
    FromRoundTrip("ERR", displayName, contents);
  }

  /** The MSG/ERR round trip for the keyword `kw`. */
  lemma {:induction false} FromRoundTrip(kw: string, d: string, c: string)
    requires |kw| == 3 && ' ' !in kw && IsDisplayName(d) && IsContent(c)
    ensures ParseFromLine(kw, kw + " FROM " + d + " IS " + c + "\r\n") == Success(TcpMsg(d, UpTo(c + "\r\n", ' ')))
  {
    FromLine(kw, d, c);
    ParsedFrom(kw, kw + " FROM " + d + " IS " + c + "\r\n", d, c);
  }

  /** A line that matches, read at the places where its name and contents are known to be. */
  lemma ParsedFrom(kw: string, m: string, d: string, c: string)
    requires |kw| == 3 && ' ' !in kw && MatchesFrom(kw, m)
    requires UpTo(m[9..], ' ') == d && 13 + |d| <= |m| && m[13 + |d|..] == c + "\r\n"
    ensures ParseFromLine(kw, m) == Success(TcpMsg(d, UpTo(c + "\r\n", ' ')))
  {
  }

  /** A line that ends in a single CRLF has everything before it as its body. */
  lemma {:induction false} LineBodyCrLf(b: string)
    ensures LineBody(b + "\r\n") == Some(b)
  {
    var m := b + "\r\n";
    assert m[|m| - 2] == '\r';
    assert m[|m| - 2..] == "\r\n";
    assert m[..|m| - 2] == b;
  }

  /** A display name holds no space. */
  lemma DisplayNameNoSpace(d: string)
    requires IsDisplayName(d)
    ensures ' ' !in d
  {
    forall i | 0 <= i < |d| ensures d[i] != ' ' {
      assert '!' <= d[i];
    }
  }

  /** A body built as the MSG/ERR pattern describes satisfies it, with the display name found where it was put. */
  lemma {:induction false} FromBody(kw: string, d: string, c: string)
    requires |kw| == 3 && IsDisplayName(d) && IsContent(c)
    ensures IsFromBody(kw, kw + " FROM " + d + " IS " + c)
    ensures UpTo((kw + " FROM " + d + " IS " + c)[9..], ' ') == d
  {
    var p := kw + " FROM ";
    var b := kw + " FROM " + d + " IS " + c;
    var r := d + [' '] + ("IS " + c);
    assert b == p + r;
    DropConcat(p, r);
    DisplayNameNoSpace(d);
    NoSeparatorUpTo(d, "IS " + c, ' ');
    FromBodyIntro(kw, b, d, c);
  }

  /** The MSG/ERR pattern, read off a body whose pieces are known. */
  lemma FromBodyIntro(kw: string, b: string, d: string, c: string)
    requires kw + " FROM " <= b && UpTo(b[|kw| + 6..], ' ') == d
    requires b[|kw| + 6..] == d + [' '] + ("IS " + c)
    requires IsDisplayName(d) && IsContent(c)
    ensures IsFromBody(kw, b)
  {
    var r := b[|kw| + 6..];
    assert r[|d|..|d| + 4] == " IS ";
    assert r[|d| + 4..] == c;
  }

  /** A line built as the MSG/ERR pattern describes matches it, with the display name found where it was put. */
  lemma {:induction false} FromLine(kw: string, d: string, c: string)
    requires |kw| == 3 && ' ' !in kw && IsDisplayName(d) && IsContent(c)
    ensures MatchesFrom(kw, kw + " FROM " + d + " IS " + c + "\r\n")
    ensures UpTo((kw + " FROM " + d + " IS " + c + "\r\n")[9..], ' ') == d
    ensures (kw + " FROM " + d + " IS " + c + "\r\n")[13 + |d|..] == c + "\r\n"
  {
    var b := kw + " FROM " + d + " IS " + c;
    LineBodyCrLf(b);
    FromBody(kw, d, c);
    ExtendName(kw, b, "\r\n", d);
    var p := kw + " FROM " + d + " IS ";
    assert b + "\r\n" == p + (c + "\r\n");
    DropConcat(p, c + "\r\n");
  }

  /** Dropping the first part of a concatenation leaves the second. */
  lemma DropConcat<T>(p: seq<T>, q: seq<T>)
    ensures (p + q)[|p|..] == q
  {
  }

  /** The text up to the first separator of `a + [sep] + b`, when `a` holds none, is `a`. */
  lemma {:induction false} NoSeparatorUpTo(a: string, b: string, sep: char)
    requires sep !in a
    ensures UpTo(a + [sep] + b, sep) == a
  {
    SplitAt(a, b, sep);
    SplitHead(a + [sep] + b, sep);
  }

  /** The first word of content followed by CRLF. */
  lemma {:induction false} ContentWord(c: string)
    requires IsContent(c)
    ensures ' ' !in c ==> UpTo(c + "\r\n", ' ') == c + "\r\n"
    ensures ' ' in c ==> UpTo(c + "\r\n", ' ') == UpTo(c, ' ')
  {
    if ' ' in c {
      UpToExtend(c, "\r\n", ' ');
    } else {
      SplitNone(c + "\r\n", ' ');
      SplitHead(c + "\r\n", ' ');
    }
  }

  /**
   * A REPLY line built as the pattern describes parses to its result and
   * to the first word of its contents.
   */
  lemma {:induction false} ReplyLines(ok: bool, contents: string)
    requires IsContent(contents)
    ensures ParseReplyMessage((if ok then "REPLY OK IS " else "REPLY NOK IS ") + contents + "\r\n")
            == Success(TcpReply(ok, UpTo(contents + "\r\n", ' ')))
  {
    var p := if ok then "REPLY OK IS " else "REPLY NOK IS ";
    var b := p + contents;
    var m := b + "\r\n";
    LineBodyCrLf(b);
    ReplyBody(ok, contents);
    assert m == p + (contents + "\r\n");
    DropConcat(p, contents + "\r\n");
  }

  /** A REPLY body built as the pattern describes satisfies it. */
  lemma ReplyBody(ok: bool, contents: string)
    requires IsContent(contents)
    ensures IsReplyBody((if ok then "REPLY OK IS " else "REPLY NOK IS ") + contents)
  {
    DropConcat(if ok then "REPLY OK IS " else "REPLY NOK IS ", contents);
  }

  /** A line feed without the carriage return before it does not end a line. */
  lemma BareLineFeedRejected()
    ensures ParseMsgMessage("MSG FROM bob IS hi\n").Failure?
  {
    var m := "MSG FROM bob IS hi\n";
    assert m[|m| - 2..] != "\r\n" && m[|m| - 3..] != "\r\n\n";
  }

  /** Keywords are matched case-sensitively. */
  lemma LowerCaseKeywordRejected()
    ensures ParseMsgMessage("msg from bob IS hi\r\n").Failure?
  {
    var m := "msg from bob IS hi\r\n";
    assert m[0] != 'M';
    assert LineBody(m).value[0] == m[0];
  }

  /** An extra line feed after the CRLF is accepted, as `$` allows. */
  lemma TrailingLineFeedAccepted()
    ensures ParseMsgMessage("MSG FROM bob IS hi\r\n\n").Success?
  {
    var b := "MSG FROM bob IS hi";
    var m := b + "\r\n\n";
    assert m == "MSG FROM bob IS hi\r\n\n";
    assert m[|m| - 3..] == "\r\n\n";
    assert LineBody(m) == Some(b);
    assert b == "MSG" + " FROM " + "bob" + " IS " + "hi";
    FromBody("MSG", "bob", "hi");
  }
}
