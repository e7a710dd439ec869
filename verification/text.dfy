/** Python's argument-less `str.split()`: a line is cut into the maximal runs
    of non-whitespace characters, whitespace being what `str.isspace()`
    accepts. */
module Text {

  /** The characters `str.isspace()` accepts: the ASCII controls TAB..CR and
      FS..US, SPACE, NEL, NO-BREAK SPACE and the Unicode space separators. */
  predicate IsSpace(c: char) {
    var k := c as int;
    || 0x09 <= k <= 0x0D
    || 0x1C <= k <= 0x20
    || k == 0x85 || k == 0xA0 || k == 0x1680
    || 0x2000 <= k <= 0x200A
    || k == 0x2028 || k == 0x2029 || k == 0x202F || k == 0x205F || k == 0x3000
  }

  predicate NoSpace(s: string) {
    forall k :: 0 <= k < |s| ==> !IsSpace(s[k])
  }

  /** A field as `split()` produces it: non-empty and free of whitespace. */
  predicate IsToken(t: string) {
    |t| > 0 && NoSpace(t)
  }

  predicate StartsWith(s: string, prefix: string) {
    |prefix| <= |s| && s[..|prefix|] == prefix
  }

  /** Length of the run of non-whitespace characters that opens `s`. */
  function WordLength(s: string): (n: nat)
    requires |s| > 0 && !IsSpace(s[0])
    ensures 1 <= n <= |s|
    ensures IsToken(s[..n])
    ensures n == |s| || IsSpace(s[n])
    decreases |s|
  {
    if |s| == 1 || IsSpace(s[1]) then 1
    else
      var m := WordLength(s[1..]);
      assert s[..m + 1] == [s[0]] + s[1..][..m];
      m + 1
  }

  function Split(s: string): (r: seq<string>)
    ensures forall k :: 0 <= k < |r| ==> IsToken(r[k])
    ensures |s| > 0 && !IsSpace(s[0]) ==> |r| > 0 && r[0] == s[..WordLength(s)]
    decreases |s|
  {
    if |s| == 0 then []
    else if IsSpace(s[0]) then Split(s[1..])
    else
      var n := WordLength(s);
      [s[..n]] + Split(s[n..])
  }

  /** Tokens joined by single spaces: the inverse of `Split` on tokens. */
  function Unwords(ts: seq<string>): (s: string)
    decreases |ts|
  {
    if |ts| == 0 then ""
    else if |ts| == 1 then ts[0]
    else ts[0] + " " + Unwords(ts[1..])
  }

  lemma SplitToken(t: string, rest: string)
    requires IsToken(t)
    requires |rest| == 0 || IsSpace(rest[0])
    ensures Split(t + rest) == [t] + Split(rest)
  {
    var s := t + rest;
    assert s[..|t|] == t;
    assert WordLength(s) == |t|;
    assert s[|t|..] == rest;
  }

  lemma SplitSpace(c: char, s: string)
    requires IsSpace(c)
    ensures Split([c] + s) == Split(s)
  {
    assert ([c] + s)[1..] == s;
  }

  /** One induction step of `SplitUnwords`: a token put in front of joined
      tokens is split off again. */
  lemma SplitConsToken(t: string, joined: string, ts: seq<string>)
    requires IsToken(t)
    requires Split(joined) == ts
    ensures Split(t + " " + joined) == [t] + ts
  {
    SplitSpace(' ', joined);
    assert t + " " + joined == t + ([' '] + joined);
    SplitToken(t, [' '] + joined);
  }

  lemma UnwordsCons(t: string, rest: seq<string>, tail: string)
    requires |rest| >= 1
    ensures Unwords([t] + rest) + tail == t + " " + (Unwords(rest) + tail)
  {
    assert ([t] + rest)[1..] == rest;
  }

  /** The induction step of `SplitUnwords`, for a token `t` in front of `rest`. */
  lemma SplitUnwordsStep(t: string, rest: seq<string>, tail: string)
    requires IsToken(t) && |rest| >= 1
    requires Split(Unwords(rest) + tail) == rest + Split(tail)
    ensures Split(Unwords([t] + rest) + tail) == ([t] + rest) + Split(tail)
  {
    var x := rest + Split(tail);
    assert [t] + x == ([t] + rest) + Split(tail);
    assert Split(t + " " + (Unwords(rest) + tail)) == [t] + x by {
      SplitConsToken(t, Unwords(rest) + tail, x);
    }
    UnwordsCons(t, rest, tail);
  }

  /** Splitting joined tokens gives the tokens back, whatever whitespace-led
      text follows them. */
  lemma {:induction false} SplitUnwords(ts: seq<string>, tail: string)
    requires forall k :: 0 <= k < |ts| ==> IsToken(ts[k])
    requires |tail| == 0 || IsSpace(tail[0])
    ensures Split(Unwords(ts) + tail) == ts + Split(tail)
    decreases |ts|
  {
    if |ts| == 0 {
      assert Unwords(ts) + tail == tail;
    } else if |ts| == 1 {
      SplitToken(ts[0], tail);
    } else {
      var rest := ts[1..];
      SplitUnwords(rest, tail);
      SplitUnwordsStep(ts[0], rest, tail);
      assert ts == [ts[0]] + rest;
    }
  }
}
