/**
 * The two .NET string splits the text side of the client relies on:
 * `String.Split(char)` and `String.Split("\r\n")`. Both keep empty pieces
 * and always return at least one piece; each comes with the join that
 * undoes it.
 */
module Text {
  import opened Common

  /** `s.Split(sep)`: the pieces between occurrences of `sep`, empty ones kept. */
  function Split(s: string, sep: char): (r: seq<string>)
    ensures |r| >= 1
    ensures forall i :: 0 <= i < |r| ==> sep !in r[i]
    decreases |s|
  {
    if s == [] then [[]]
    else
      var rest := Split(s[1..], sep);
      if s[0] == sep then [[]] + rest else [[s[0]] + rest[0]] + rest[1..]
  }

  /** `string.Join(sep, parts)`. */
  function Join(parts: seq<string>, sep: char): string
    requires |parts| >= 1
  {
    if |parts| == 1 then parts[0] else parts[0] + [sep] + Join(parts[1..], sep)
  }

  /** `s` up to, not including, the first `sep`; all of `s` when there is none. */
  function UpTo(s: string, sep: char): (r: string)
    ensures sep !in r && r <= s
    ensures |r| < |s| ==> s[|r|] == sep
  {
    match IndexOf(s, sep)
    case None => s
    case Some(k) => s[..k]
  }

  /** Joining the pieces with the separator gives the string back. */
  lemma {:induction false} JoinSplit(s: string, sep: char)
    ensures Join(Split(s, sep), sep) == s
    decreases |s|
  {
    if s != [] {
      var rest := Split(s[1..], sep);
      JoinSplit(s[1..], sep);
      if s[0] == sep {
        assert ([[]] + rest)[1..] == rest;
      } else if |rest| > 1 {
        assert ([[s[0]] + rest[0]] + rest[1..])[1..] == rest[1..];
        assert Join(rest, sep) == rest[0] + [sep] + Join(rest[1..], sep);
      }
    }
  }

  /** A piece that holds no separator splits off whole. */
  lemma {:induction false} SplitAt(a: string, b: string, sep: char)
    requires sep !in a
    ensures Split(a + [sep] + b, sep) == [a] + Split(b, sep)
    decreases |a|
  {
    var s := a + [sep] + b;
    if a == [] {
      assert s[1..] == b;
    } else {
      assert s[1..] == a[1..] + [sep] + b;
      SplitAt(a[1..], b, sep);
      assert [a[0]] + a[1..] == a;
    }
  }

  /** A string without the separator is a single piece. */
  lemma {:induction false} SplitNone(a: string, sep: char)
    requires sep !in a
    ensures Split(a, sep) == [a]
    decreases |a|
  {
    if a != [] {
      SplitNone(a[1..], sep);
      assert [a[0]] + a[1..] == a;
    }
  }

  /** The first piece is the text up to the first separator. */
  lemma {:induction false} SplitHead(s: string, sep: char)
    ensures Split(s, sep)[0] == UpTo(s, sep)
  {
    var k := |UpTo(s, sep)|;
    if k < |s| {
      assert s == UpTo(s, sep) + [sep] + s[k + 1..];
      SplitAt(UpTo(s, sep), s[k + 1..], sep);
    } else {
      assert UpTo(s, sep) == s;
      SplitNone(s, sep);
    }
  }

  /** No carriage return immediately followed by a line feed. */
  predicate NoCrLf(s: string) {
    forall i :: 0 <= i < |s| - 1 ==> !(s[i] == '\r' && s[i + 1] == '\n')
  }

  /**
   * `s.Split("\r\n")`: the pieces between the CRLF pairs met scanning left
   * to right, empty ones kept.
   */
  function SplitCrLf(s: string): (r: seq<string>)
    ensures |r| >= 1 && r[0] <= s
    ensures forall i :: 0 <= i < |r| ==> NoCrLf(r[i])
    decreases |s|
  {
    if s == [] then [[]]
    else if |s| >= 2 && s[0] == '\r' && s[1] == '\n' then [[]] + SplitCrLf(s[2..])
    else
      var rest := SplitCrLf(s[1..]);
      var first := [s[0]] + rest[0];
      assert NoCrLf(first) by {
        forall i | 0 <= i < |first| - 1 ensures !(first[i] == '\r' && first[i + 1] == '\n') {
          if i > 0 {
            assert first[i] == rest[0][i - 1] && first[i + 1] == rest[0][i];
          }
        }
      }
      [first] + rest[1..]
  }

  /** The pieces joined with CRLF. */
  function JoinCrLf(parts: seq<string>): string
    requires |parts| >= 1
  {
    if |parts| == 1 then parts[0] else parts[0] + "\r\n" + JoinCrLf(parts[1..])
  }

  /** Joining the pieces with CRLF gives the string back. */
  lemma {:induction false} JoinSplitCrLf(s: string)
    ensures JoinCrLf(SplitCrLf(s)) == s
    decreases |s|
  {
    if s == [] {
    } else if |s| >= 2 && s[0] == '\r' && s[1] == '\n' {
      JoinSplitCrLf(s[2..]);
      JoinAfterSeparator(s, SplitCrLf(s[2..]));
    } else {
      JoinSplitCrLf(s[1..]);
      JoinExtendFirst(s[0], SplitCrLf(s[1..]));
      assert [s[0]] + s[1..] == s;
    }
  }

  lemma JoinAfterSeparator(s: string, rest: seq<string>)
    requires |s| >= 2 && s[0] == '\r' && s[1] == '\n'
    requires |rest| >= 1 && JoinCrLf(rest) == s[2..]
    ensures JoinCrLf([[]] + rest) == s
  {
    assert ([[]] + rest)[1..] == rest;
    assert s == "\r\n" + s[2..];
  }

  lemma JoinExtendFirst(c: char, rest: seq<string>)
    requires |rest| >= 1
    ensures JoinCrLf([[c] + rest[0]] + rest[1..]) == [c] + JoinCrLf(rest)
  {
    var parts := [[c] + rest[0]] + rest[1..];
    assert parts[0] == [c] + rest[0];
    if |rest| > 1 {
      assert parts[1..] == rest[1..];
      Assoc3(c, rest[0], JoinCrLf(rest[1..]));
    }
  }

  lemma Assoc3(c: char, a: string, t: string)
    ensures ([c] + a) + "\r\n" + t == [c] + (a + "\r\n" + t)
  {
  }

  /** A piece without CRLF followed by CRLF splits off whole. */
  lemma {:induction false} SplitCrLfAt(a: string, b: string)
    requires NoCrLf(a)
    ensures SplitCrLf(a + "\r\n" + b) == [a] + SplitCrLf(b)
    decreases |a|
  {
    var s := a + "\r\n" + b;
    if a == [] {
      assert s[2..] == b;
    } else {
      assert s[0] == a[0];
      assert s[1] != '\n' || a[0] != '\r' by {
        if |a| >= 2 {
          assert s[1] == a[1];
        } else {
          assert s[1] == '\r';
        }
      }
      assert s[1..] == a[1..] + "\r\n" + b;
      assert NoCrLf(a[1..]) by {
        forall i | 0 <= i < |a[1..]| - 1 ensures !(a[1..][i] == '\r' && a[1..][i + 1] == '\n') {
          assert a[1..][i] == a[i + 1] && a[1..][i + 1] == a[i + 2];
        }
      }
      SplitCrLfAt(a[1..], b);
      assert [a[0]] + a[1..] == a;
    }
  }

  /** A string without CRLF is a single piece. */
  lemma {:induction false} SplitCrLfNone(a: string)
    requires NoCrLf(a)
    ensures SplitCrLf(a) == [a]
    decreases |a|
  {
    if a != [] {
      assert |a| >= 2 ==> !(a[0] == '\r' && a[1] == '\n');
      assert NoCrLf(a[1..]) by {
        forall i | 0 <= i < |a[1..]| - 1 ensures !(a[1..][i] == '\r' && a[1..][i + 1] == '\n') {
          assert a[1..][i] == a[i + 1] && a[1..][i + 1] == a[i + 2];
        }
      }
      SplitCrLfNone(a[1..]);
      assert [a[0]] + a[1..] == a;
    }
  }
}
