/** Character classes, trimming, splitting and decimal text, as the C locale, Boost.StringAlgo
    and std::stoi define them for the protocol code. */
module Text {

  const NUL: char := '\0'
  const INT_MIN: int := -0x8000_0000
  const INT_MAX: int := 0x7FFF_FFFF

  datatype Option<+T> = None | Some(value: T)

  /** std::isspace in the C locale. */
  predicate IsSpace(c: char) {
    c == ' ' || '\t' <= c <= '\r'
  }

  /** std::ispunct in the C locale. */
  predicate IsPunct(c: char) {
    '!' <= c <= '/' || ':' <= c <= '@' || '[' <= c <= '`' || '{' <= c <= '~'
  }

  predicate IsPunctOrSpace(c: char) {
    IsPunct(c) || IsSpace(c)
  }

  predicate IsDigit(c: char) {
    '0' <= c <= '9'
  }

  function ToUpper(c: char): char {
    if 'a' <= c <= 'z' then (c as int - 32) as char else c
  }

  /** boost::iequals: equality up to ASCII case. */
  predicate IEquals(a: string, b: string) {
    |a| == |b| && forall i :: 0 <= i < |a| ==> ToUpper(a[i]) == ToUpper(b[i])
  }

  /** The six characters of whitespace, the thirty-two of punctuation and the ten digits. */
  lemma CharacterClasses(c: char)
    ensures IsSpace(c) <==> c in {' ', '\t', '\n', '\U{0B}', '\U{0C}', '\r'}
    ensures IsPunct(c) <==>
              c in {'!', '\"', '#', '$', '%', '&', '\'', '(', ')', '*', '+', ',', '-', '.', '/', ':',
                    ';', '<', '=', '>', '?', '@', '[', '\\', ']', '^', '_', '`', '{', '|', '}', '~'}
    ensures IsDigit(c) <==> c in {'0', '1', '2', '3', '4', '5', '6', '7', '8', '9'}
  {
  }

  /** Two texts are equal up to case if and only if they differ in the case of ASCII letters only. */
  lemma EqualUpToCase(a: string, b: string)
    ensures IEquals(a, b) <==>
            |a| == |b| && forall i :: 0 <= i < |a| ==>
              a[i] == b[i] || ('a' <= a[i] <= 'z' && b[i] as int == a[i] as int - 32)
              || ('a' <= b[i] <= 'z' && a[i] as int == b[i] as int - 32)
  {
  }

  predicate Lacks(s: string, c: char) {
    forall i :: 0 <= i < |s| ==> s[i] != c
  }

  /** memcpy of `part` to position `at`. */
  function Overwrite<T>(s: seq<T>, at: nat, part: seq<T>): (r: seq<T>)
    requires at + |part| <= |s|
    ensures |r| == |s|
    ensures forall i :: 0 <= i < |r| ==> r[i] == if at <= i < at + |part| then part[i - at] else s[i]
  {
    s[..at] + part + s[at + |part|..]
  }

  /** The text a C function sees in a character array: everything before the first NUL. */
  function CString(s: string): (r: string)
    ensures Lacks(r, NUL) && r <= s
    ensures Lacks(s, NUL) ==> r == s
  {
    var i := Find(s, NUL);
    s[..i]
  }

  /** Index of the first `c`, or the length when there is none. */
  function Find(s: string, c: char): (i: nat)
    ensures i <= |s| && Lacks(s[..i], c)
    ensures i < |s| ==> s[i] == c
  {
    if s == [] || s[0] == c then 0
    else
      var i := 1 + Find(s[1..], c);
      assert forall k :: 0 < k < i ==> s[..i][k] == s[1..][..i-1][k-1];
      i
  }

  lemma FindUnique(s: string, c: char, i: nat)
    requires i <= |s| && Lacks(s[..i], c) && (i < |s| ==> s[i] == c)
    ensures Find(s, c) == i
  {
    var j := Find(s, c);
    assert forall k :: 0 <= k < i ==> s[k] == s[..i][k];
    assert forall k :: 0 <= k < j ==> s[k] == s[..j][k];
  }

  /* ---------- trimming ---------- */

  function TrimRight(s: string, p: char -> bool): (r: string)
    ensures r <= s
    ensures r == [] || !p(r[|r|-1])
    ensures forall i :: |r| <= i < |s| ==> p(s[i])
  {
    if s != [] && p(s[|s|-1]) then TrimRight(s[..|s|-1], p) else s
  }

  function TrimLeft(s: string, p: char -> bool): (r: string)
    ensures |r| <= |s| && r == s[|s|-|r|..]
    ensures r == [] || !p(r[0])
    ensures forall i :: 0 <= i < |s|-|r| ==> p(s[i])
  {
    if s != [] && p(s[0]) then TrimLeft(s[1..], p) else s
  }

  function Trim(s: string): string {
    TrimLeft(TrimRight(s, IsSpace), IsSpace)
  }

  /** No whitespace at either end: exactly the strings `Trim` leaves alone. */
  predicate Trimmed(s: string) {
    s == [] || (!IsSpace(s[0]) && !IsSpace(s[|s|-1]))
  }

  lemma TrimIsTrimmed(s: string)
    ensures Trimmed(Trim(s))
    ensures Trim(s) == s <==> Trimmed(s)
  {
    var r := TrimRight(s, IsSpace);
    var t := TrimLeft(r, IsSpace);
    if t != [] { assert t[|t|-1] == r[|r|-1]; }
  }

  /** `TrimRight` is the only prefix that stops right after the last character to keep. */
  lemma TrimRightUnique(s: string, p: char -> bool, n: nat)
    requires n <= |s| && (n == 0 || !p(s[n-1]))
    requires forall i :: n <= i < |s| ==> p(s[i])
    ensures TrimRight(s, p) == s[..n]
  {
    var r := TrimRight(s, p);
    assert r == s[..|r|] && (r == [] || !p(s[|r|-1]));
  }

  lemma TrimLeftUnique(s: string, p: char -> bool, n: nat)
    requires n <= |s| && (n == |s| || !p(s[n]))
    requires forall i :: 0 <= i < n ==> p(s[i])
    ensures TrimLeft(s, p) == s[n..]
  {
    var r := TrimLeft(s, p);
    var k := |s| - |r|;
    assert k < |s| ==> r[0] == s[k];
  }

  predicate Spaces(s: string) {
    forall i :: 0 <= i < |s| ==> IsSpace(s[i])
  }

  /** Trimming takes the outer whitespace off a word, whatever it is, and nothing else. */
  lemma TrimPadded(before: string, word: string, after: string)
    requires Spaces(before) && Spaces(after) && Trimmed(word)
    ensures Trim(before + word + after) == word
  {
    var s := before + word + after;
    hide TrimRight, TrimLeft;
    if word == [] {
      TrimRightUnique(s, IsSpace, 0);
      TrimLeftUnique([], IsSpace, 0);
    } else {
      var t := before + word;
      assert t[|t|-1] == word[|word|-1] && s[..|t|] == t;
      TrimRightUnique(s, IsSpace, |t|);
      TrimLeftUnique(t, IsSpace, |before|);
    }
  }

  /* ---------- splitting ---------- */

  function Repeat(c: char, n: nat): (r: string)
    ensures |r| == n && forall i :: 0 <= i < n ==> r[i] == c
  {
    seq(n, i => c)
  }

  function SkipSeparators(s: string, sep: char): (r: string)
    ensures |r| <= |s| && r == s[|s|-|r|..]
  {
    if s != [] && s[0] == sep then SkipSeparators(s[1..], sep) else s
  }

  /** boost::split with token_compress_on: runs of separators count as one, and a separator at
      either end leaves an empty token there. */
  function Split(s: string, sep: char): (tokens: seq<string>)
    ensures |tokens| > 0
    decreases |s|
  {
    var i := Find(s, sep);
    if i == |s| then [s] else [s[..i]] + Split(SkipSeparators(s[i+1..], sep), sep)
  }

  lemma LacksSlice(s: string, c: char, i: nat, j: nat)
    requires Lacks(s, c) && i <= j <= |s|
    ensures Lacks(s[i..j], c)
  {
  }

  lemma {:induction false} SplitLacks(s: string, sep: char)
    ensures forall k :: 0 <= k < |Split(s, sep)| ==> Lacks(Split(s, sep)[k], sep)
    decreases |s|
  {
    var i := Find(s, sep);
    hide Lacks, SkipSeparators, Find;
    if i < |s| { SplitLacks(SkipSeparators(s[i+1..], sep), sep); } else { assert s[..i] == s; }
  }

  lemma {:induction false} SplitKeepsLack(s: string, sep: char, c: char)
    requires Lacks(s, c)
    ensures forall k :: 0 <= k < |Split(s, sep)| ==> Lacks(Split(s, sep)[k], c)
    decreases |s|
  {
    hide Lacks, SkipSeparators;
    var i := Find(s, sep);
    if i < |s| {
      var rest := SkipSeparators(s[i+1..], sep);
      assert rest == s[|s|-|rest|..|s|];
      LacksSlice(s, c, 0, i);
      LacksSlice(s, c, |s| - |rest|, |s|);
      SplitKeepsLack(rest, sep, c);
      assert s[..i] == s[0..i];
    }
  }

  lemma TrimKeepsLack(s: string, c: char)
    requires Lacks(s, c)
    ensures Lacks(Trim(s), c)
  {
  }

  lemma SplitOne(s: string, sep: char)
    requires Lacks(s, sep)
    ensures Split(s, sep) == [s]
  {
    FindUnique(s, sep, |s|);
  }

  lemma SplitFirst(t: string, rest: string, sep: char)
    requires Lacks(t, sep) && (rest == [] || rest[0] != sep)
    ensures Split(t + [sep] + rest, sep) == [t] + Split(rest, sep)
  {
    var s := t + [sep] + rest;
    assert s[..|t|] == t && s[|t|] == sep;
    FindUnique(s, sep, |t|);
    assert s[|t|+1..] == rest;
    assert SkipSeparators(rest, sep) == rest;
  }

  lemma {:induction false} SkipRun(n: nat, rest: string, sep: char)
    requires rest == [] || rest[0] != sep
    ensures SkipSeparators(Repeat(sep, n) + rest, sep) == rest
  {
    hide Repeat, SkipSeparators;
    if n == 0 {
      assert Repeat(sep, 0) + rest == rest;
      SkipStep(rest, sep);
    } else {
      RepeatTail(sep, n);
      SkipRun(n - 1, rest, sep);
      SkipOne(Repeat(sep, n - 1), rest, sep);
    }
  }

  lemma SkipOne(r: string, rest: string, sep: char)
    ensures SkipSeparators([sep] + r + rest, sep) == SkipSeparators(r + rest, sep)
  {
    hide SkipSeparators;
    var s := [sep] + r + rest;
    assert s[1..] == r + rest;
    SkipStep(s, sep);
  }

  lemma SkipStep(s: string, sep: char)
    ensures SkipSeparators(s, sep) == if s != [] && s[0] == sep then SkipSeparators(s[1..], sep) else s
  {
  }

  /** A token ends at a run of separators of any length. */
  lemma SplitRun(t: string, n: nat, rest: string, sep: char)
    requires Lacks(t, sep) && n > 0 && (rest == [] || rest[0] != sep)
    ensures Split(t + Repeat(sep, n) + rest, sep) == [t] + Split(rest, sep)
  {
    hide Split, Find, SkipSeparators, Repeat, Lacks;
    var r := Repeat(sep, n - 1);
    RepeatTail(sep, n);
    CutAt(t, r, rest, sep);
    SkipRun(n - 1, rest, sep);
    SplitAt(t + ([sep] + r) + rest, |t|, sep);
  }

  lemma CutAt(t: string, r: string, rest: string, sep: char)
    requires Lacks(t, sep)
    ensures var s := t + ([sep] + r) + rest;
            Find(s, sep) == |t| < |s| && s[..|t|] == t && s[|t|+1..] == r + rest
  {
    hide Find;
    var s := t + ([sep] + r) + rest;
    assert s[..|t|] == t && s[|t|] == sep;
    FindUnique(s, sep, |t|);
  }

  lemma SplitAt(s: string, i: nat, sep: char)
    requires Find(s, sep) == i < |s|
    ensures Split(s, sep) == [s[..i]] + Split(SkipSeparators(s[i+1..], sep), sep)
  {
    hide Find, SkipSeparators;
  }

  lemma RepeatTail(c: char, n: nat)
    requires n > 0
    ensures Repeat(c, n) == [c] + Repeat(c, n - 1)
  {
  }

  function Join(tokens: seq<string>, sep: char): string {
    if tokens == [] then []
    else if |tokens| == 1 then tokens[0]
    else tokens[0] + [sep] + Join(tokens[1..], sep)
  }

  /** Splitting undoes joining when every token is non-empty and free of the separator. */
  lemma {:induction false} SplitJoin(tokens: seq<string>, sep: char)
    requires |tokens| > 0
    requires forall k :: 0 <= k < |tokens| ==> Lacks(tokens[k], sep) && tokens[k] != []
    ensures Split(Join(tokens, sep), sep) == tokens
    ensures Join(tokens, sep) != [] && Join(tokens, sep)[0] != sep
  {
    hide Split, Find;
    if |tokens| == 1 {
      SplitOne(tokens[0], sep);
    } else {
      SplitJoin(tokens[1..], sep);
      SplitFirst(tokens[0], Join(tokens[1..], sep), sep);
      assert tokens == [tokens[0]] + tokens[1..];
    }
  }

  lemma {:induction false} JoinAppend(tokens: seq<string>, last: string, sep: char)
    requires tokens != []
    ensures Join(tokens + [last], sep) == Join(tokens, sep) + [sep] + last
  {
    if |tokens| == 1 {
      assert (tokens + [last])[1..] == [last];
    } else {
      JoinAppend(tokens[1..], last, sep);
      assert (tokens + [last])[1..] == tokens[1..] + [last];
    }
  }

  /* ---------- decimal numbers ---------- */

  function Digit(n: nat): char
    requires n < 10
  {
    ('0' as int + n) as char
  }

  function NatText(n: nat): (s: string)
    ensures |s| > 0 && forall i :: 0 <= i < |s| ==> IsDigit(s[i])
  {
    if n < 10 then [Digit(n)] else NatText(n / 10) + [Digit(n % 10)]
  }

  /** The decimal form boost::format gives an int. */
  function IntText(n: int): string {
    if n < 0 then "-" + NatText(-n) else NatText(n)
  }

  function DigitValue(c: char): nat {
    if IsDigit(c) then c as int - '0' as int else 0
  }

  function DigitsValue(s: string): nat {
    if s == [] then 0 else 10 * DigitsValue(s[..|s|-1]) + DigitValue(s[|s|-1])
  }

  function DigitPrefix(s: string): (n: nat)
    ensures n <= |s| && forall i :: 0 <= i < n ==> IsDigit(s[i])
    ensures n < |s| ==> !IsDigit(s[n])
  {
    if s != [] && IsDigit(s[0]) then 1 + DigitPrefix(s[1..]) else 0
  }

  lemma DigitPrefixAll(s: string)
    requires forall i :: 0 <= i < |s| ==> IsDigit(s[i])
    ensures DigitPrefix(s) == |s|
  {
  }

  datatype IntResult = IntOk(n: int) | InvalidArgument | OutOfRange

  /** std::stoi in base 10: leading whitespace, an optional sign, then the longest run of digits. */
  function Stoi(s: string): (r: IntResult)
    ensures r.IntOk? ==> INT_MIN <= r.n <= INT_MAX
  {
    var t := TrimLeft(s, IsSpace);
    var signed := t != [] && (t[0] == '-' || t[0] == '+');
    var u := if signed then t[1..] else t;
    var n := DigitPrefix(u);
    if n == 0 then InvalidArgument
    else
      var magnitude: int := DigitsValue(u[..n]);
      var v := if signed && t[0] == '-' then -magnitude else magnitude;
      if INT_MIN <= v <= INT_MAX then IntOk(v) else OutOfRange
  }

  lemma {:induction false} NatTextValue(n: nat)
    ensures DigitsValue(NatText(n)) == n
  {
    var s := NatText(n);
    if n < 10 {
      assert s[..0] == [];
    } else {
      NatTextValue(n / 10);
      assert s[..|s|-1] == NatText(n / 10);
    }
  }

  /** Reading back a printed number gives the number, for every 32-bit int. */
  lemma StoiIntText(n: int)
    requires INT_MIN <= n <= INT_MAX
    ensures Stoi(IntText(n)) == IntOk(n)
  {
    hide NatText, Stoi, DigitPrefix, DigitsValue, IntText;
    var magnitude: nat := if n < 0 then -n else n;
    PlainNumber(magnitude);
    StoiSigned("", if n < 0 then "-" else "", NatText(magnitude), magnitude);
    IntTextIs(n);
  }

  lemma PlainNumber(n: nat)
    ensures var u := NatText(n);
            u != "" && IsDigit(u[0]) && DigitPrefix(u) == |u| && DigitsValue(u[..DigitPrefix(u)]) == n
  {
    hide NatText, DigitPrefix, DigitsValue;
    var u := NatText(n);
    DigitPrefixAll(u);
    NatTextValue(n);
    assert u[..|u|] == u;
  }

  lemma IntTextIs(n: int)
    ensures IntText(n) == "" + (if n < 0 then "-" else "") + NatText(if n < 0 then -n else n)
  {
    hide NatText;
    assert "" + NatText(if n < 0 then -n else n) == NatText(if n < 0 then -n else n);
  }

  /* ---------- std::stoi on any text ---------- */

  lemma {:induction false} LeadingZeroes(k: nat, d: string)
    ensures DigitsValue(Repeat('0', k) + d) == DigitsValue(d)
    decreases |d| + k
  {
    var s := Repeat('0', k) + d;
    if d == [] {
      if k > 0 {
        LeadingZeroes(k - 1, d);
        assert s[..|s|-1] == Repeat('0', k - 1) + d;
      }
    } else {
      LeadingZeroes(k, d[..|d|-1]);
      assert s[..|s|-1] == Repeat('0', k) + d[..|d|-1];
    }
  }

  lemma {:induction false} DigitPrefixIs(s: string, n: nat)
    requires n <= |s| && (forall i :: 0 <= i < n ==> IsDigit(s[i])) && (n < |s| ==> !IsDigit(s[n]))
    ensures DigitPrefix(s) == n
  {
    if n > 0 { DigitPrefixIs(s[1..], n - 1); }
  }

  predicate Sign(s: string) {
    s == "" || s == "-" || s == "+"
  }

  lemma AfterSign(spaces: string, sign: string, u: string)
    requires Spaces(spaces) && Sign(sign) && (sign == "" && u != "" ==> !IsSpace(u[0]) && u[0] != '-' && u[0] != '+')
    ensures var t := TrimLeft(spaces + sign + u, IsSpace);
            t == sign + u && (sign != "" ==> t[0] == sign[0] && t[1..] == u)
            && (t != "" && (t[0] == '-' || t[0] == '+') <==> sign != "")
  {
    var s, t := spaces + sign + u, sign + u;
    assert s == spaces + t && s[|spaces|..] == t;
    TrimLeftUnique(s, IsSpace, |spaces|);
  }

  lemma NumberInFront(zeroes: nat, n: nat, rest: string)
    requires rest == "" || !IsDigit(rest[0])
    ensures var u := Repeat('0', zeroes) + NatText(n) + rest;
            u != "" && IsDigit(u[0]) && 0 < DigitPrefix(u) <= |u| && DigitsValue(u[..DigitPrefix(u)]) == n
  {
    hide NatText, DigitPrefix, DigitsValue;
    var d := Repeat('0', zeroes) + NatText(n);
    var u := d + rest;
    DigitPrefixIs(u, |d|);
    assert u[..|d|] == d;
    LeadingZeroes(zeroes, NatText(n));
    NatTextValue(n);
  }

  /** Whitespace, a sign, leading zeroes, digits and any rest: the number counts if it fits 32 bits,
      and is out of range if it does not. */
  lemma StoiReads(spaces: string, sign: string, zeroes: nat, n: nat, rest: string)
    requires Spaces(spaces) && Sign(sign) && (rest == "" || !IsDigit(rest[0]))
    ensures var v: int := if sign == "-" then -(n as int) else n;
            Stoi(spaces + sign + (Repeat('0', zeroes) + NatText(n) + rest))
            == if -0x8000_0000 <= v <= 0x7FFF_FFFF then IntOk(v) else OutOfRange
  {
    hide Repeat, NatText, Stoi, DigitPrefix, DigitsValue;
    NumberInFront(zeroes, n, rest);
    StoiSigned(spaces, sign, Repeat('0', zeroes) + NatText(n) + rest, n);
  }

  lemma StoiSigned(spaces: string, sign: string, u: string, n: nat)
    requires Spaces(spaces) && Sign(sign) && u != "" && IsDigit(u[0])
    requires 0 < DigitPrefix(u) <= |u| && DigitsValue(u[..DigitPrefix(u)]) == n
    ensures var v: int := if sign == "-" then -(n as int) else n;
            Stoi(spaces + sign + u) == if INT_MIN <= v <= INT_MAX then IntOk(v) else OutOfRange
  {
    hide TrimLeft, DigitPrefix, DigitsValue;
    AfterSign(spaces, sign, u);
  }

  /** Without a digit after the whitespace and the sign there is no number. */
  lemma StoiRejects(spaces: string, sign: string, rest: string)
    requires Spaces(spaces) && Sign(sign) && (rest == "" || !IsDigit(rest[0]))
    requires sign == "" && rest != "" ==> !IsSpace(rest[0]) && rest[0] != '-' && rest[0] != '+'
    ensures Stoi(spaces + sign + rest) == InvalidArgument
  {
    hide TrimLeft, DigitPrefix;
    AfterSign(spaces, sign, rest);
    DigitPrefixIs(rest, 0);
  }

  function Power(k: nat): (r: nat)
    ensures r > 0
  {
    if k == 0 then 1 else 10 * Power(k - 1)
  }

  /** The base is ten, both ways. */
  lemma BaseTen()
    ensures NatText(1027) == "1027" && DigitsValue("1027") == 1027
  {
    assert NatText(1) == "1" && NatText(10) == "1" + "0" && NatText(102) == "10" + "2" && NatText(1027) == "102" + "7";
    var s := "1027";
    assert s[..3] == "102" && s[..3][..2] == "10" && s[..3][..2][..1] == "1" && "1"[..0] == "";
    assert DigitsValue("1") == 1 && DigitsValue("10") == 10 && DigitsValue("102") == 102;
  }
}
