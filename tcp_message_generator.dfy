/**
 * Encoder of the text (stream) message format: one keyword line per
 * message, words separated by single spaces, terminated by CRLF.
 */
module TcpMessageGenerator {
  import opened Common
  import opened Text

  /** Ends in a carriage return and line feed. */
  predicate EndsWithCrLf(s: string) {
    |s| >= 2 && s[|s| - 2..] == "\r\n"
  }

  /** `s` without its last two characters. */
  function DropCrLf(s: string): string
    requires |s| >= 2
  {
    s[..|s| - 2]
  }

  function GenerateAuthMessage(username: string, displayName: string, secret: string): (r: string)
    ensures EndsWithCrLf(r) && |r| == 18 + |username| + |displayName| + |secret|
    ensures r[..5] == "AUTH "
  {
    "AUTH " + username + " AS " + displayName + " USING " + secret + "\r\n"
  }

  function GenerateJoinMessage(channelId: string, displayName: string): (r: string)
    ensures EndsWithCrLf(r) && |r| == 11 + |channelId| + |displayName|
    ensures r[..5] == "JOIN "
  {
    "JOIN " + channelId + " AS " + displayName + "\r\n"
  }

  function GenerateMsgMessage(displayName: string, contents: string): (r: string)
    ensures EndsWithCrLf(r) && |r| == 15 + |displayName| + |contents|
    ensures r[..9] == "MSG FROM "
  {
    "MSG FROM " + displayName + " IS " + contents + "\r\n"
  }

  function GenerateErrMessage(displayName: string, contents: string): (r: string)
    ensures EndsWithCrLf(r) && |r| == 15 + |displayName| + |contents|
    ensures r[..9] == "ERR FROM "
  {
    "ERR FROM " + displayName + " IS " + contents + "\r\n"
  }

  function GenerateByeMessage(): (r: string)
    ensures EndsWithCrLf(r) && DropCrLf(r) == "BYE"
  {
    "BYE\r\n"
  }

  /**
   * Without its CRLF, an AUTH line whose arguments hold no space splits on
   * spaces into exactly the keywords and the three arguments.
   */
  lemma AuthWords(username: string, displayName: string, secret: string)
    requires ' ' !in username && ' ' !in displayName && ' ' !in secret
    ensures Split(DropCrLf(GenerateAuthMessage(username, displayName, secret)), ' ')
            == ["AUTH", username, "AS", displayName, "USING", secret]
  {
    var line := DropCrLf(GenerateAuthMessage(username, displayName, secret));
    assert line == "AUTH" + " " + username + " " + "AS" + " " + displayName + " " + "USING" + " " + secret;
    assert ' ' !in "AUTH" && ' ' !in "AS" && ' ' !in "USING";
    SixWords("AUTH", username, "AS", displayName, "USING", secret);
  }

  /** Six words without spaces, joined by single spaces, split back into the six. */
  lemma SixWords(a: string, b: string, c: string, d: string, e: string, f: string)
    requires ' ' !in a && ' ' !in b && ' ' !in c && ' ' !in d && ' ' !in e && ' ' !in f
    ensures Split(a + " " + b + " " + c + " " + d + " " + e + " " + f, ' ') == [a, b, c, d, e, f]
  {
    Spaced6(a, b, c, d, e, f);
    var t := e + " " + f;
    Word(e, f);
    SplitNone(f, ' ');
    Word(d, t);
    Word(c, d + " " + t);
    Word(b, c + " " + (d + " " + t));
    Word(a, b + " " + (c + " " + (d + " " + t)));
  }

  lemma Spaced6(a: string, b: string, c: string, d: string, e: string, f: string)
    ensures a + " " + b + " " + c + " " + d + " " + e + " " + f
            == a + " " + (b + " " + (c + " " + (d + " " + (e + " " + f))))
  {
  }

  /** A word without spaces, then a space, splits off whole. */
  lemma Word(a: string, rest: string)
    requires ' ' !in a
    ensures Split(a + " " + rest, ' ') == [a] + Split(rest, ' ')
  {
    assert a + " " + rest == a + [' '] + rest;
    SplitAt(a, rest, ' ');
  }

  /**
   * Without its CRLF, a JOIN line whose arguments hold no space splits on
   * spaces into exactly the keywords and the two arguments.
   */
  lemma JoinWords(channelId: string, displayName: string)
    requires ' ' !in channelId && ' ' !in displayName
    ensures Split(DropCrLf(GenerateJoinMessage(channelId, displayName)), ' ')
            == ["JOIN", channelId, "AS", displayName]
  {
    var line := DropCrLf(GenerateJoinMessage(channelId, displayName));
    assert line == "JOIN" + " " + (channelId + " " + ("AS" + " " + displayName));
    SplitAt("JOIN", channelId + " " + ("AS" + " " + displayName), ' ');
    SplitAt(channelId, "AS" + " " + displayName, ' ');
    SplitAt("AS", displayName, ' ');
    SplitNone(displayName, ' ');
  }

  /** MSG and ERR lines for the same arguments differ in the leading keyword only. */
  lemma MsgAndErrDifferOnlyInKeyword(displayName: string, contents: string)
    ensures GenerateErrMessage(displayName, contents) == "ERR" + GenerateMsgMessage(displayName, contents)[3..]
    ensures GenerateMsgMessage(displayName, contents)[..3] != GenerateErrMessage(displayName, contents)[..3]
  {
    assert GenerateMsgMessage(displayName, contents)[..3] == "MSG";
    assert GenerateErrMessage(displayName, contents)[..3] == "ERR";
  }
}
