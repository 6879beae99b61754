/**
 * The terminal client's input line format, `<recipient>: <text>`: the line is
 * split at its first colon, both halves are trimmed, and a line without a
 * colon is refused ("Incorrect syntax!"). The result is the `Message` the
 * client sends, from its own nickname and without expiry.
 */
module LineParser {
  import opened Wrappers
  import opened Messages

  /** Rust's `char::is_whitespace`: the Unicode White_Space property. */
  predicate IsWhitespace(c: char)
  {
    var n := c as int;
    || 0x09 <= n <= 0x0D
    || n == 0x20
    || n == 0x85
    || n == 0xA0
    || n == 0x1680
    || 0x2000 <= n <= 0x200A
    || n == 0x2028
    || n == 0x2029
    || n == 0x202F
    || n == 0x205F
    || n == 0x3000
  }

  /** Every character of `s` at a position in [lo, hi) is whitespace. */
  predicate WhitespaceIn(s: string, lo: int, hi: int)
  {
    forall k :: lo <= k < hi && 0 <= k < |s| ==> IsWhitespace(s[k])
  }

  predicate AllWhitespace(s: string)
  {
    WhitespaceIn(s, 0, |s|)
  }

  /** Neither the first nor the last character is whitespace. */
  predicate Trimmed(s: string)
  {
    s == [] || (!IsWhitespace(s[0]) && !IsWhitespace(s[|s| - 1]))
  }

  /** `str::trim_start`: drop the leading whitespace. */
  function TrimStart(s: string): (r: string)
    ensures |r| <= |s| && r == s[|s| - |r|..]
    ensures WhitespaceIn(s, 0, |s| - |r|)
    ensures r == [] || !IsWhitespace(r[0])
    decreases |s|
  {
    if s != [] && IsWhitespace(s[0]) then
      var r := TrimStart(s[1..]);
      assert WhitespaceIn(s, 0, |s| - |r|) by {
        forall k | 1 <= k < |s| - |r| ensures IsWhitespace(s[k]) {
          assert s[k] == s[1..][k - 1];
        }
      }
      r
    else s
  }

  /** `str::trim_end`: drop the trailing whitespace. */
  function TrimEnd(s: string): (r: string)
    ensures |r| <= |s| && r == s[..|r|]
    ensures WhitespaceIn(s, |r|, |s|)
    ensures r == [] || !IsWhitespace(r[|r| - 1])
    decreases |s|
  {
    if s != [] && IsWhitespace(s[|s| - 1]) then
      var r := TrimEnd(s[..|s| - 1]);
      assert WhitespaceIn(s, |r|, |s|) by {
        forall k | |r| <= k < |s| - 1 ensures IsWhitespace(s[k]) {
          assert s[k] == s[..|s| - 1][k];
        }
      }
      r
    else s
  }

  /** `r` occurs in `s` at offset `i`, with nothing but whitespace before and after it. */
  predicate PaddedAt(s: string, r: string, i: int)
  {
    && 0 <= i && i + |r| <= |s|
    && (forall k :: 0 <= k < |r| ==> r[k] == s[i + k])
    && WhitespaceIn(s, 0, i)
    && WhitespaceIn(s, i + |r|, |s|)
  }

  /**
   * `str::trim`: the part of `s` that neither starts nor ends with whitespace
   * and has only whitespace around it; the leading whitespace removed is what
   * `trim_start` removes.
   */
  function Trim(s: string): (r: string)
    ensures Trimmed(r)
    ensures PaddedAt(s, r, |s| - |TrimStart(s)|)
    ensures Trimmed(s) ==> r == s
  {
    TrimBothPadded(s);
    TrimBothTrimmed(s);
    TrimBothKeepsTrimmed(s);
    TrimEnd(TrimStart(s))
  }

  /** Trim's result sits padded in its input. */
  lemma TrimBothPadded(s: string)
    ensures PaddedAt(s, TrimEnd(TrimStart(s)), |s| - |TrimStart(s)|)
  {
    PaddedFromParts(s, TrimStart(s), TrimEnd(TrimStart(s)));
  }

  /** A prefix `r` of a suffix `t` of `s`, each cut off at whitespace, sits padded inside `s`. */
  lemma PaddedFromParts(s: string, t: string, r: string)
    requires |t| <= |s| && t == s[|s| - |t|..] && WhitespaceIn(s, 0, |s| - |t|)
    requires |r| <= |t| && r == t[..|r|] && WhitespaceIn(t, |r|, |t|)
    ensures PaddedAt(s, r, |s| - |t|)
  {
    var i := |s| - |t|;
    assert forall k :: 0 <= k < |t| ==> t[k] == s[i + k];
    assert WhitespaceIn(s, i + |r|, |s|) by {
      forall k | i + |r| <= k < |s| ensures IsWhitespace(s[k]) {
        assert s[k] == t[k - i];
      }
    }
  }

  /** Trim's result neither starts nor ends with whitespace. */
  lemma TrimBothTrimmed(s: string)
    ensures Trimmed(TrimEnd(TrimStart(s)))
  {
  }

  /** Trim leaves an already trimmed string alone. */
  lemma TrimBothKeepsTrimmed(s: string)
    ensures Trimmed(s) ==> TrimEnd(TrimStart(s)) == s
  {
  }

  /** Trimming undoes whitespace padding around a trimmed string. */
  lemma {:induction false} TrimPadded(w1: string, x: string, w2: string)
    requires AllWhitespace(w1) && AllWhitespace(w2) && Trimmed(x)
    ensures Trim(w1 + x + w2) == x
  {
    if x == [] {
      var s := w1 + x + w2;
      assert AllWhitespace(s) by {
        forall k | 0 <= k < |s| ensures IsWhitespace(s[k]) {
          if k < |w1| { assert s[k] == w1[k]; } else { assert s[k] == w2[k - |w1|]; }
        }
      }
    } else {
      TrimStartPadded(w1, x + w2);
      assert w1 + x + w2 == w1 + (x + w2);
      TrimEndPadded(x, w2);
    }
  }

  /** `trim_start` removes exactly a whitespace prefix in front of a non-whitespace character. */
  lemma {:induction false} TrimStartPadded(w: string, y: string)
    requires AllWhitespace(w) && (y == [] || !IsWhitespace(y[0]))
    ensures TrimStart(w + y) == y
    decreases |w|
  {
    if w != [] {
      assert (w + y)[1..] == w[1..] + y;
      TrimStartPadded(w[1..], y);
    } else {
      assert w + y == y;
    }
  }

  /** `trim_end` removes exactly a whitespace suffix after a non-whitespace character. */
  lemma {:induction false} TrimEndPadded(y: string, w: string)
    requires AllWhitespace(w) && (y == [] || !IsWhitespace(y[|y| - 1]))
    ensures TrimEnd(y + w) == y
    decreases |w|
  {
    if w != [] {
      assert (y + w)[..|y + w| - 1] == y + w[..|w| - 1];
      TrimEndPadded(y, w[..|w| - 1]);
    } else {
      assert y + w == y;
    }
  }

  /** Position of the first colon of `s`, if any. */
  function FirstColon(s: string): (r: Option<nat>)
    ensures r.None? <==> ':' !in s
    ensures r.Some? ==> r.value < |s| && s[r.value] == ':' && ':' !in s[..r.value]
    decreases |s|
  {
    if s == [] then None
    else if s[0] == ':' then Some(0)
    else
      match FirstColon(s[1..])
      case None => None
      case Some(i) =>
        assert s[..i + 1] == [s[0]] + s[1..][..i];
        Some(i + 1)
  }

  /** `line.splitn(2, ':')`: the whole line, or the text before the first colon and the text after it. */
  function SplitOnce(line: string): (parts: seq<string>)
    ensures |parts| == 1 || |parts| == 2
    ensures |parts| == 1 <==> ':' !in line
    ensures |parts| == 1 ==> parts[0] == line
    ensures |parts| == 2 ==> ':' !in parts[0]
    ensures |parts| == 2 ==>
              var i := |parts[0]|;
              i < |line| && line[i] == ':' && parts[0] == line[..i] && parts[1] == line[i + 1..]
  {
    match FirstColon(line)
    case None => [line]
    case Some(i) => [line[..i], line[i + 1..]]
  }

  /** The text before the first colon is unique: a colon-free prefix followed by a colon is it. */
  lemma SplitOnceUnique(r: string, c: string)
    requires ':' !in r
    ensures SplitOnce(r + ":" + c) == [r, c]
  {
    var line := r + ":" + c;
    var parts := SplitOnce(line);
    var p := parts[0];
    assert line[|r|] == ':' && forall k :: 0 <= k < |r| ==> line[k] == r[k] != ':';
    assert line[|p|] == ':' && forall k :: 0 <= k < |p| ==> line[k] == p[k] != ':';
    assert p == line[..|r|] == r;
    assert parts[1] == line[|r| + 1..] == c;
  }

  /** A character absent from `s` is absent from any padded part of it. */
  lemma PaddedExcludes(s: string, r: string, i: int, c: char)
    requires PaddedAt(s, r, i) && c !in s
    ensures c !in r
  {
  }

  /** The message the client builds from one input line, or None for "Incorrect syntax!". */
  function ParseLine(nickname: string, line: string): (r: Option<Message>)
    ensures r.None? <==> ':' !in line
    ensures r.Some? ==> r.value.sender == nickname && r.value.deleteTimestamp == 0
    ensures r.Some? ==> Trimmed(r.value.recipient) && Trimmed(r.value.content)
    ensures r.Some? ==> ':' !in r.value.recipient
  {
    var parts := SplitOnce(line);
    if |parts| == 2 then
      var recipient := Trim(parts[0]);
      PaddedExcludes(parts[0], recipient, |parts[0]| - |TrimStart(parts[0])|, ':');
      Some(Message(nickname, recipient, Trim(parts[1]), 0))
    else None
  }

  /** Only the first colon splits: the recipient is the trimmed text before it, the content the trimmed rest, colons included. */
  lemma ParseLineSplitsAtFirstColon(nickname: string, r: string, c: string)
    requires ':' !in r
    ensures ParseLine(nickname, r + ":" + c) == Some(Message(nickname, Trim(r), Trim(c), 0))
  {
    SplitOnceUnique(r, c);
  }

  /** Round trip: a recipient and a text written as `r: c`, with any padding, parse back to themselves. */
  lemma ParseLineRoundTrip(nickname: string, r: string, c: string, w1: string, w2: string, w3: string, w4: string)
    requires ':' !in r && Trimmed(r) && Trimmed(c)
    requires AllWhitespace(w1) && AllWhitespace(w2) && AllWhitespace(w3) && AllWhitespace(w4)
    ensures ParseLine(nickname, w1 + r + w2 + ":" + w3 + c + w4) == Some(Message(nickname, r, c, 0))
  {
    var before := w1 + r + w2;
    assert !IsWhitespace(':');
    assert ':' !in w1 && ':' !in w2;
    assert ':' !in before by {
      assert forall k :: 0 <= k < |before| ==> before[k] in w1 || before[k] in r || before[k] in w2;
    }
    assert w1 + r + w2 + ":" + w3 + c + w4 == before + ":" + (w3 + c + w4);
    ParseLineSplitsAtFirstColon(nickname, before, w3 + c + w4);
    TrimPadded(w1, r, w2);
    TrimPadded(w3, c, w4);
  }

  /** A line starting with a colon still yields a message, addressed to the empty nickname. */
  lemma ParseLineEmptyRecipient(nickname: string, line: string)
    requires |line| > 0 && line[0] == ':'
    ensures ParseLine(nickname, line) == Some(Message(nickname, [], Trim(line[1..]), 0))
  {
  }
}
