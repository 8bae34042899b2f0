/** Character-level helpers with the semantics of Python's str methods, on ASCII. */
module Text {

  /** Python's str.isspace() on the ASCII range: tab to carriage return, the four
      information separators 0x1C-0x1F, and the space. */
  predicate IsSpace(c: char) {
    var n := c as int;
    n == 32 || 9 <= n <= 13 || 28 <= n <= 31
  }

  /** str.islower() on a single ASCII character. */
  predicate IsLower(c: char) {
    'a' <= c <= 'z'
  }

  predicate IsUpper(c: char) {
    'A' <= c <= 'Z'
  }

  /** str.upper() on a single ASCII character. */
  function ToUpper(c: char): (u: char)
    ensures IsLower(c) ==> IsUpper(u) && ToLower(u) == c
    ensures !IsLower(c) ==> u == c
  {
    if IsLower(c) then (c as int - 32) as char else c
  }

  function ToLower(c: char): (l: char)
    ensures IsUpper(c) ==> IsLower(l)
    ensures !IsUpper(c) ==> l == c
  {
    if IsUpper(c) then (c as int + 32) as char else c
  }

  /** The first character upper-cased when it is a lower-case letter; everything
      else, the empty string included, unchanged. */
  function Capitalize(s: string): (r: string)
    ensures |r| == |s|
    ensures s != [] ==> r[1..] == s[1..]
    ensures s != [] ==> !IsLower(r[0]) && ToLower(r[0]) == ToLower(s[0])
    ensures s != [] && !IsLower(s[0]) ==> r == s
  {
    if |s| > 0 && IsLower(s[0]) then [ToUpper(s[0])] + s[1..] else s
  }

  /** The number of whitespace characters s starts with. */
  function LeadingSpaces(s: string): (n: nat)
    ensures n <= |s|
    ensures forall k :: 0 <= k < n ==> IsSpace(s[k])
    ensures n < |s| ==> !IsSpace(s[n])
  {
    if s != [] && IsSpace(s[0]) then 1 + LeadingSpaces(s[1..]) else 0
  }

  /** The number of whitespace characters s ends with. */
  function TrailingSpaces(s: string): (n: nat)
    ensures n <= |s|
    ensures forall k :: |s| - n <= k < |s| ==> IsSpace(s[k])
    ensures n < |s| ==> !IsSpace(s[|s| - n - 1])
  {
    if s != [] && IsSpace(s[|s| - 1]) then 1 + TrailingSpaces(s[..|s| - 1]) else 0
  }

  /** str.lstrip(). */
  function StripLeft(s: string): string {
    s[LeadingSpaces(s)..]
  }

  /** str.rstrip(). */
  function StripRight(s: string): string {
    s[..|s| - TrailingSpaces(s)]
  }

  /** str.strip(): the result is no longer than s and neither starts nor ends
      with whitespace. */
  function Strip(s: string): (r: string)
    ensures |r| <= |s|
    ensures r == [] || (!IsSpace(r[0]) && !IsSpace(r[|r| - 1]))
  {
    var l := StripLeft(s);
    var r := StripRight(l);
    assert r != [] ==> r[0] == s[LeadingSpaces(s)];
    r
  }

  /** r is what remains of s once its first i characters and some more at its
      end are cut, all of them whitespace: a slice of s that neither starts nor
      ends with whitespace. */
  ghost predicate StrippedSlice(s: string, i: int, r: string) {
    && 0 <= i <= i + |r| <= |s| && r == s[i..i + |r|]
    && (forall k :: 0 <= k < i ==> IsSpace(s[k]))
    && (forall k :: i + |r| <= k < |s| ==> IsSpace(s[k]))
    && (r == [] || (!IsSpace(r[0]) && !IsSpace(r[|r| - 1])))
  }

  /** str.strip() cuts whitespace, and only whitespace, from both ends. */
  lemma StripSlice(s: string)
    ensures StrippedSlice(s, LeadingSpaces(s), Strip(s))
  {
    StripIsSlice(s);
  }

  lemma StripIsSlice(s: string)
    ensures var i := LeadingSpaces(s);
            && i + |Strip(s)| <= |s| && Strip(s) == s[i..i + |Strip(s)|]
            && forall k :: i + |Strip(s)| <= k < |s| ==> IsSpace(s[k])
  {
    var i := LeadingSpaces(s);
    var l := s[i..];
    var t := TrailingSpaces(l);
    var r := l[..|l| - t];
    assert Strip(s) == r;
    SliceOfSuffix(s, i, |r|);
    SpacesAfter(s, i, |r|);
  }

  lemma SliceOfSuffix(s: string, i: nat, m: nat)
    requires i + m <= |s|
    ensures s[i..][..m] == s[i..i + m]
  {
  }

  /** Whitespace at the end of s[i..] is whitespace at the end of s. */
  lemma SpacesAfter(s: string, i: nat, n: nat)
    requires i <= |s| && n == |s[i..]| - TrailingSpaces(s[i..])
    ensures forall k :: i + n <= k < |s| ==> IsSpace(s[k])
  {
    var l := s[i..];
    forall k | i + n <= k < |s|
      ensures IsSpace(s[k])
    {
      assert s[k] == l[k - i];
    }
  }

  /** Stripping twice is stripping once. */
  lemma {:induction false} StripIdempotent(s: string)
    ensures Strip(Strip(s)) == Strip(s)
  {
    var r := Strip(s);
    StripSlice(s);
    if r != [] {
      assert LeadingSpaces(r) == 0;
      assert StripLeft(r) == r;
      assert TrailingSpaces(r) == 0;
    }
  }

  /** The length of the leading run of non-whitespace characters. */
  function WordLength(s: string): (n: nat)
    ensures n <= |s|
    ensures forall k :: 0 <= k < n ==> !IsSpace(s[k])
    ensures n < |s| ==> IsSpace(s[n])
  {
    if s == [] || IsSpace(s[0]) then 0 else 1 + WordLength(s[1..])
  }

  /** A word of str.split(): non-empty, without whitespace. */
  predicate IsWord(w: string) {
    w != [] && forall k :: 0 <= k < |w| ==> !IsSpace(w[k])
  }

  /** str.split() with no separator: the maximal runs of non-whitespace characters. */
  function Words(s: string): (ws: seq<string>)
    ensures forall i :: 0 <= i < |ws| ==> IsWord(ws[i])
    decreases |s|
  {
    var t := StripLeft(s);
    if t == [] then []
    else
      var n := WordLength(t);
      assert t[0] == s[LeadingSpaces(s)];
      var w := t[..n];
      assert IsWord(w);
      [w] + Words(t[n..])
  }

  /** LeadingSpaces is fixed by the position of the first non-whitespace character. */
  lemma LeadingSpacesAt(s: string, n: nat)
    requires n <= |s| && forall k :: 0 <= k < n ==> IsSpace(s[k])
    requires n < |s| ==> !IsSpace(s[n])
    ensures LeadingSpaces(s) == n
  {
  }

  /** WordLength is fixed by the position of the first whitespace character. */
  lemma WordLengthAt(s: string, n: nat)
    requires n <= |s| && forall k :: 0 <= k < n ==> !IsSpace(s[k])
    requires n < |s| ==> IsSpace(s[n])
    ensures WordLength(s) == n
  {
  }

  /** A string of whitespace has no words. */
  lemma WordsOfSpaces(s: string)
    requires forall k :: 0 <= k < |s| ==> IsSpace(s[k])
    ensures Words(s) == []
  {
    LeadingSpacesAt(s, |s|);
  }

  /** A single word splits into itself. */
  lemma WordsOfWord(w: string)
    requires IsWord(w)
    ensures Words(w) == [w]
  {
    LeadingSpacesAt(w, 0);
    assert StripLeft(w) == w;
    WordLengthAt(w, |w|);
    assert w[..|w|] == w && w[|w|..] == [];
  }

  /** Whitespace separates words: splitting around a whitespace character splits
      the two sides separately, so no word spans it and none is cut without it. */
  lemma {:induction false} WordsAtSpace(a: string, c: char, b: string)
    requires IsSpace(c)
    ensures Words(a + [c] + b) == Words(a) + Words(b)
    decreases |a|
  {
    if LeadingSpaces(a) == |a| {
      WordsAfterSpaces(a, c, b);
    } else {
      var (w, rest) := FirstWord(a);
      assert Words(a + [c] + b) == Words(a) + Words(b) by {
        FirstWordThen(a, c, b);
        WordsAtSpace(rest, c, b);
        Associative([w], Words(rest), Words(b));
      }
    }
  }

  lemma Associative(x: seq<string>, y: seq<string>, z: seq<string>)
    ensures x + (y + z) == (x + y) + z
  {
  }

  /** The first word of a string that has one, and what follows it. */
  function FirstWord(a: string): (wr: (string, string))
    requires LeadingSpaces(a) < |a|
    ensures |wr.1| < |a|
    ensures Words(a) == [wr.0] + Words(wr.1)
  {
    var t := StripLeft(a);
    assert t[0] == a[LeadingSpaces(a)];
    var n := WordLength(t);
    (t[..n], t[n..])
  }

  /** The first word of a is also the first word of a + [c] + b. */
  lemma FirstWordThen(a: string, c: char, b: string)
    requires IsSpace(c) && LeadingSpaces(a) < |a|
    ensures Words(a + [c] + b) == [FirstWord(a).0] + Words(FirstWord(a).1 + [c] + b)
  {
    StripLeftOfWordThen(a, c, b);
    WordsAfterWord(StripLeft(a), c, b);
  }

  /** Leading whitespace before a whitespace character yields no words. */
  lemma WordsAfterSpaces(a: string, c: char, b: string)
    requires IsSpace(c) && LeadingSpaces(a) == |a|
    ensures Words(a + [c] + b) == Words(a) + Words(b)
  {
    assert Words(a + [c] + b) == Words(b) by {
      StripLeftOfSpacesThen(a, c, b);
    }
    assert Words(a) == [] by {
      assert StripLeft(a) == [];
    }
  }

  /** A string that starts with a word followed by whitespace splits off that word first. */
  lemma WordsAfterWord(t: string, c: char, b: string)
    requires IsSpace(c) && t != [] && !IsSpace(t[0])
    ensures var n := WordLength(t);
      Words(t + [c] + b) == [t[..n]] + Words(t[n..] + [c] + b)
  {
    var u := t + [c] + b;
    var n := WordLength(t);
    assert LeadingSpaces(u) == 0;
    assert WordLength(u) == n by {
      WordLengthThen(t, c, b);
    }
    assert u[..n] == t[..n];
    assert u[n..] == t[n..] + [c] + b;
  }

  lemma {:induction false} StripLeftOfSpacesThen(a: string, c: char, b: string)
    requires IsSpace(c) && LeadingSpaces(a) == |a|
    ensures StripLeft(a + [c] + b) == StripLeft(b)
  {
    var s := a + [c] + b;
    if a == [] {
      assert s[1..] == b;
    } else {
      assert s[0] == a[0];
      assert s[1..] == a[1..] + [c] + b;
      StripLeftOfSpacesThen(a[1..], c, b);
    }
    StripLeftSpaceFirst(s);
  }

  /** A leading whitespace character is stripped like the rest. */
  lemma StripLeftSpaceFirst(s: string)
    requires s != [] && IsSpace(s[0])
    ensures StripLeft(s) == StripLeft(s[1..])
  {
    assert s[1..][LeadingSpaces(s[1..])..] == s[1 + LeadingSpaces(s[1..])..];
  }

  lemma {:induction false} StripLeftOfWordThen(a: string, c: char, b: string)
    requires LeadingSpaces(a) < |a|
    ensures StripLeft(a + [c] + b) == StripLeft(a) + [c] + b
    ensures StripLeft(a) != [] && !IsSpace(StripLeft(a)[0])
  {
    var s := a + [c] + b;
    assert s[0] == a[0];
    if IsSpace(a[0]) {
      assert s[1..] == a[1..] + [c] + b;
      StripLeftOfWordThen(a[1..], c, b);
      StripLeftSpaceFirst(a);
      StripLeftSpaceFirst(s);
    }
  }

  lemma WordLengthThen(t: string, c: char, b: string)
    requires IsSpace(c) && t != [] && !IsSpace(t[0])
    ensures WordLength(t + [c] + b) == WordLength(t) > 0
  {
    var u := t + [c] + b;
    var n := WordLength(t);
    forall k | 0 <= k < n
      ensures !IsSpace(u[k])
    {
      assert u[k] == t[k];
    }
    assert u[n] == if n < |t| then t[n] else c;
    WordLengthAt(u, n);
  }

  /** s with its whitespace characters removed. */
  function NonSpace(s: string): string {
    if s == [] then []
    else if IsSpace(s[0]) then NonSpace(s[1..])
    else [s[0]] + NonSpace(s[1..])
  }

  function Concat(ws: seq<string>): string {
    if ws == [] then [] else ws[0] + Concat(ws[1..])
  }

  lemma {:induction false} NonSpaceAppend(a: string, b: string)
    ensures NonSpace(a + b) == NonSpace(a) + NonSpace(b)
  {
    if a != [] {
      assert (a + b)[1..] == a[1..] + b;
      NonSpaceAppend(a[1..], b);
    } else {
      assert a + b == b;
    }
  }

  lemma {:induction false} NonSpaceOfSpaces(s: string)
    requires forall k :: 0 <= k < |s| ==> IsSpace(s[k])
    ensures NonSpace(s) == []
  {
    if s != [] {
      NonSpaceOfSpaces(s[1..]);
    }
  }

  lemma {:induction false} NonSpaceOfWord(s: string)
    requires forall k :: 0 <= k < |s| ==> !IsSpace(s[k])
    ensures NonSpace(s) == s
  {
    if s != [] {
      NonSpaceOfWord(s[1..]);
    }
  }

  /** Leading whitespace contributes nothing to NonSpace. */
  lemma NonSpaceAfterStripLeft(s: string)
    ensures NonSpace(s) == NonSpace(StripLeft(s))
  {
    var t := StripLeft(s);
    var d := LeadingSpaces(s);
    assert s == s[..d] + t;
    NonSpaceAppend(s[..d], t);
    NonSpaceOfSpaces(s[..d]);
  }

  /** A leading word is kept whole by NonSpace. */
  lemma NonSpaceOfWordThenRest(t: string, n: nat)
    requires n <= |t| && forall k :: 0 <= k < n ==> !IsSpace(t[k])
    ensures NonSpace(t) == t[..n] + NonSpace(t[n..])
  {
    assert t == t[..n] + t[n..];
    NonSpaceAppend(t[..n], t[n..]);
    NonSpaceOfWord(t[..n]);
  }

  /** Splitting loses exactly the whitespace: the words, concatenated, are the
      non-whitespace characters of s in order. */
  lemma {:induction false} WordsKeepNonSpace(s: string)
    ensures Concat(Words(s)) == NonSpace(s)
    decreases |s|
  {
    var t := StripLeft(s);
    NonSpaceAfterStripLeft(s);
    if t != [] {
      var n := WordLength(t);
      assert Words(s) == [t[..n]] + Words(t[n..]);
      assert Concat(Words(s)) == t[..n] + Concat(Words(t[n..]));
      WordsKeepNonSpace(t[n..]);
      NonSpaceOfWordThenRest(t, n);
    }
  }

  /** str(n) for a natural number: its decimal digits, most significant first. */
  function NatToString(n: nat): (s: string)
    ensures s != [] && forall k :: 0 <= k < |s| ==> '0' <= s[k] <= '9'
    ensures |s| > 1 ==> s[0] != '0'
  {
    if n < 10 then [Digit(n)] else NatToString(n / 10) + [Digit(n % 10)]
  }

  function Digit(d: nat): (c: char)
    requires d < 10
    ensures '0' <= c <= '9' && c as int - '0' as int == d
  {
    ('0' as int + d) as char
  }

  /** str(i) for any integer: a minus sign before the digits of a negative number. */
  function IntToString(i: int): (s: string)
    ensures s != []
    ensures (s[0] == '-') <==> i < 0
  {
    if i < 0 then "-" + NatToString(-i) else NatToString(i)
  }

  /** The value of a string of decimal digits. */
  function DecimalValue(s: string): nat
    requires forall k :: 0 <= k < |s| ==> '0' <= s[k] <= '9'
  {
    if s == [] then 0 else 10 * DecimalValue(s[..|s| - 1]) + (s[|s| - 1] as int - '0' as int)
  }

  /** Reading the digits back gives the number. */
  lemma {:induction false} NatToStringValue(n: nat)
    ensures DecimalValue(NatToString(n)) == n
  {
    if n >= 10 {
      NatToStringValue(n / 10);
      var s := NatToString(n);
      assert s[..|s| - 1] == NatToString(n / 10);
    }
  }

  lemma NatToStringInjective(m: nat, n: nat)
    requires NatToString(m) == NatToString(n)
    ensures m == n
  {
    NatToStringValue(m);
    NatToStringValue(n);
  }

  /** Different numbers print differently. */
  lemma IntToStringInjective(i: int, j: int)
    requires IntToString(i) == IntToString(j)
    ensures i == j
  {
    var s := IntToString(i);
    if i < 0 {
      assert j < 0;
      assert s[1..] == NatToString(-i) && s[1..] == NatToString(-j);
      NatToStringInjective(-i, -j);
    } else {
      assert j >= 0;
      NatToStringInjective(i, j);
    }
  }
}
