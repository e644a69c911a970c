/** src/util/StringUtil.cpp, with decimal printing and std::stoi. */
module StringUtil {
  import opened Basics

  predicate IsSpace(c: char) {
    c == ' ' || c == '\t' || c == '\n' || c == '\U{0B}' || c == '\U{0C}' || c == '\r'
  }

  // ----- trim

  predicate Trimmed(s: string) {
    s != "" ==> !IsSpace(s[0]) && !IsSpace(s[|s| - 1])
  }

  predicate AllSpace(s: string) {
    forall i :: 0 <= i < |s| ==> IsSpace(s[i])
  }

  /** s without leading and trailing white space. */
  function Trim(s: string): (t: string)
    ensures Trimmed(t)
    decreases |s|
  {
    if s == "" then ""
    else if IsSpace(s[0]) then Trim(s[1..])
    else if IsSpace(s[|s| - 1]) then Trim(s[..|s| - 1])
    else s
  }

  lemma {:induction false} TrimLead(before: string, t: string)
    requires AllSpace(before)
    ensures Trim(before + t) == Trim(t)
    decreases |before|
  {
    if before == "" {
      assert before + t == t;
    } else {
      TrimLead(before[1..], t);
      assert (before + t)[1..] == before[1..] + t;
    }
  }

  lemma {:induction false} TrimTail(s: string, after: string)
    requires AllSpace(after) && Trimmed(s)
    ensures Trim(s + after) == s
    decreases |after|
  {
    if s == "" {
      TrimLead(after, "");
      assert s + after == after + "";
    } else if after == "" {
      assert s + after == s;
    } else {
      TrimTail(s, after[..|after| - 1]);
      assert (s + after)[..|s + after| - 1] == s + after[..|after| - 1];
    }
  }

  /** White space around a trimmed string is exactly what trimming removes. */
  lemma TrimPadded(before: string, s: string, after: string)
    requires AllSpace(before) && AllSpace(after) && Trimmed(s)
    ensures Trim(before + s + after) == s
  {
    TrimTail(s, after);
    TrimLead(before, s + after);
    assert before + s + after == before + (s + after);
  }

  /** What trimming keeps is a slice with only white space around it. */
  lemma {:induction false} TrimIsSlice(s: string) returns (before: string, after: string)
    ensures s == before + Trim(s) + after && AllSpace(before) && AllSpace(after)
    decreases |s|
  {
    hide IsSpace, AllSpace, Trimmed;
    before, after := "", "";
    if s != "" && IsSpace(s[0]) {
      before, after := TrimIsSlice(s[1..]);
      assert s == [s[0]] + s[1..];
      Regroup([s[0]], before, Trim(s[1..]), after);
      AllSpaceMore(s[0], before);
      before := [s[0]] + before;
    } else if s != "" && IsSpace(s[|s| - 1]) {
      before, after := TrimIsSlice(s[..|s| - 1]);
      assert s == s[..|s| - 1] + [s[|s| - 1]];
      Regroup([s[|s| - 1]], before, Trim(s[..|s| - 1]), after);
      AllSpaceMore(s[|s| - 1], after);
      after := after + [s[|s| - 1]];
    } else {
      NoSpace();
      assert s == "" + Trim(s) + "";
    }
  }

  lemma NoSpace()
    ensures AllSpace("")
  {
  }

  lemma AllSpaceMore(c: char, t: string)
    requires IsSpace(c) && AllSpace(t)
    ensures AllSpace([c] + t) && AllSpace(t + [c])
  {
  }

  lemma Regroup(x: string, a: string, b: string, c: string)
    ensures x + (a + b + c) == (x + a) + b + c
    ensures (a + b + c) + x == a + b + (c + x)
  {
  }

  method TrimScan(s: string) returns (t: string)
    ensures t == Trim(s)
  {
    var start := 0;
    while start != |s| && IsSpace(s[start])
      invariant 0 <= start <= |s|
      invariant Trim(s[start..]) == Trim(s)
    {
      assert s[start..][1..] == s[start + 1..];
      start := start + 1;
    }
    var end := |s| - 1;
    assert s[start..end + 1] == s[start..];
    while end - start > 0 && IsSpace(s[end])
      invariant start - 1 <= end < |s|
      invariant start < |s| ==> start <= end && !IsSpace(s[start])
      invariant Trim(s[start..end + 1]) == Trim(s)
    {
      assert s[start..end + 1][..end - start] == s[start..end];
      end := end - 1;
    }
    t := s[start..end + 1];
  }

  // ----- split

  /** All the delimited fields of s, including a last empty one. */
  function Fields(s: string, d: char): (f: seq<string>)
    ensures |f| > 0
  {
    if s == "" then [""]
    else
      var f := Fields(s[..|s| - 1], d);
      var c := s[|s| - 1];
      if c == d then f + [""] else f[..|f| - 1] + [f[|f| - 1] + [c]]
  }

  /** The fields without a last empty one. */
  function Split(s: string, d: char): seq<string> {
    var f := Fields(s, d);
    if f[|f| - 1] == "" then f[..|f| - 1] else f
  }

  function Join(words: seq<string>, d: char): string {
    if words == [] then ""
    else if |words| == 1 then words[0]
    else Join(words[..|words| - 1], d) + [d] + words[|words| - 1]
  }

  method SplitScan(s: string, delimiter: char) returns (words: seq<string>)
    ensures words == Split(s, delimiter)
  {
    words := [];
    var current: string := "";
    for i := 0 to |s|
      invariant words + [current] == Fields(s[..i], delimiter)
    {
      var c := s[i];
      assert s[..i + 1][..i] == s[..i];
      assert (words + [current])[..|words|] == words;
      if c != delimiter {
        current := current + [c];
      } else {
        words := words + [current];
        current := "";
      }
    }
    assert s[..|s|] == s;
    assert (words + [current])[..|words|] == words;
    if current != "" {
      words := words + [current];
    }
  }

  lemma {:induction false} FieldsJoin(s: string, d: char)
    ensures Join(Fields(s, d), d) == s
  {
    if s != "" {
      var init, c := s[..|s| - 1], s[|s| - 1];
      var f := Fields(init, d);
      FieldsJoin(init, d);
      assert s == init + [c];
      if c == d {
        assert (f + [""])[..|f|] == f;
      } else {
        var g := f[..|f| - 1] + [f[|f| - 1] + [c]];
        assert g[..|g| - 1] == f[..|f| - 1];
      }
    }
  }

  lemma FieldsOneMore(s: string, d: char, c: char)
    requires c != d
    ensures var f := Fields(s, d);
            Fields(s + [c], d) == f[..|f| - 1] + [f[|f| - 1] + [c]]
  {
    assert (s + [c])[..|s|] == s;
  }

  lemma {:induction false} FieldsExtend(s: string, d: char, w: string)
    requires d !in w
    ensures Fields(s + w, d) == Fields(s, d)[..|Fields(s, d)| - 1] + [Fields(s, d)[|Fields(s, d)| - 1] + w]
  {
    hide Fields;
    var f := Fields(s, d);
    if w == "" {
      assert s + w == s;
      assert f[|f| - 1] + w == f[|f| - 1];
    } else {
      var init, c := w[..|w| - 1], w[|w| - 1];
      FieldsExtend(s, d, init);
      FieldsOneMore(s + init, d, c);
      assert s + w == s + init + [c];
      assert f[|f| - 1] + w == f[|f| - 1] + init + [c];
    }
  }

  lemma FieldsAfterDelimiter(s: string, d: char)
    ensures Fields(s + [d], d) == Fields(s, d) + [""]
  {
    assert (s + [d])[..|s|] == s;
  }

  lemma {:induction false} JoinFields(words: seq<string>, d: char)
    requires words != [] && forall w :: w in words ==> d !in w
    ensures Fields(Join(words, d), d) == words
  {
    var n := |words| - 1;
    var init, w := words[..n], words[n];
    assert "" + w == w;
    if n == 0 {
      FieldsExtend("", d, w);
    } else {
      JoinFields(init, d);
      FieldsAfterDelimiter(Join(init, d), d);
      FieldsExtend(Join(init, d) + [d], d, w);
      assert (init + [""])[..n] == init;
      assert init + [w] == words;
    }
  }

  /** Joining the parts gives the string back, but for one delimiter at its end. */
  lemma SplitThenJoin(s: string, d: char)
    ensures Join(Split(s, d), d) == if s != "" && s[|s| - 1] == d then s[..|s| - 1] else s
  {
    FieldsJoin(s, d);
    if s != "" && s[|s| - 1] == d {
      FieldsJoin(s[..|s| - 1], d);
      var f := Fields(s[..|s| - 1], d);
      assert (f + [""])[..|f|] == f;
    }
  }

  /** Joining and splitting gives the words back exactly when none holds the delimiter and the last
      is not empty. */
  lemma JoinThenSplit(words: seq<string>, d: char)
    ensures Split(Join(words, d), d) == words <==>
            (forall w :: w in words ==> d !in w) && (words != [] ==> words[|words| - 1] != "")
  {
    if words != [] && forall w :: w in words ==> d !in w {
      JoinFields(words, d);
    } else {
      FieldsFree(Join(words, d), d);
    }
  }

  /** A text of terminated lines. */
  function Terminate(lines: seq<string>, d: char): string {
    if lines == [] then "" else Terminate(lines[..|lines| - 1], d) + lines[|lines| - 1] + [d]
  }

  lemma {:induction false} SplitTerminated(lines: seq<string>, d: char)
    requires forall w :: w in lines ==> d !in w
    ensures Split(Terminate(lines, d), d) == lines
    ensures Fields(Terminate(lines, d), d) == lines + [""]
  {
    if lines != [] {
      var n := |lines| - 1;
      var init, w := lines[..n], lines[n];
      SplitTerminated(init, d);
      FieldsExtend(Terminate(init, d), d, w);
      FieldsAfterDelimiter(Terminate(init, d) + w, d);
      assert (init + [""])[..n] == init;
      assert "" + w == w;
      assert init + [w] == lines;
    }
    assert (lines + [""])[..|lines|] == lines;
  }

  /** No part of a split string holds the delimiter. */
  lemma {:induction false} FieldsFree(s: string, d: char)
    ensures forall w :: w in Fields(s, d) ==> d !in w
  {
    if s != "" {
      FieldsFree(s[..|s| - 1], d);
      var f := Fields(s[..|s| - 1], d);
      assert f[|f| - 1] in f;
    }
  }

  // ----- small scans

  method ContainsSemicolon(s: string) returns (b: bool)
    ensures b <==> ';' in s
  {
    if s == "" {
      return false;
    }
    for i := 0 to |s|
      invariant ';' !in s[..i]
    {
      if s[i] == ';' {
        return true;
      }
    }
    return false;
  }

  predicate IsDigit(c: char) {
    '0' <= c <= '9'
  }

  method IsNumber(s: string) returns (b: bool)
    ensures b <==> s != "" && forall c :: c in s ==> IsDigit(c)
  {
    if s == "" {
      return false;
    }
    for i := 0 to |s|
      invariant forall c :: c in s[..i] ==> IsDigit(c)
    {
      if !IsDigit(s[i]) {
        return false;
      }
    }
    assert s[..|s|] == s;
    return true;
  }

  predicate IsUpper(c: char) {
    'A' <= c <= 'Z'
  }

  function LowerChar(c: char): char {
    if IsUpper(c) then c - 'A' + 'a' else c
  }

  function Lower(s: string): (t: string)
    ensures |t| == |s| && forall i :: 0 <= i < |s| ==> t[i] == LowerChar(s[i])
  {
    seq(|s|, i requires 0 <= i < |s| => LowerChar(s[i]))
  }

  method LowerInPlace(s: array<char>)
    modifies s
    ensures s[..] == Lower(old(s[..]))
  {
    for i := 0 to s.Length
      invariant forall k :: 0 <= k < i ==> s[k] == LowerChar(old(s[k]))
      invariant forall k :: i <= k < s.Length ==> s[k] == old(s[k])
    {
      s[i] := LowerChar(s[i]);
    }
  }

  predicate SameLetter(a: char, b: char) {
    a == b || (IsUpper(a) && b == a - 'A' + 'a') || (IsUpper(b) && a == b - 'A' + 'a')
  }

  predicate SameButCase(s: string, t: string) {
    |s| == |t| && forall i :: 0 <= i < |s| ==> SameLetter(s[i], t[i])
  }

  /** Lowering forgets the case of letters and nothing else. */
  lemma LowerForgetsCase(s: string, t: string)
    ensures Lower(s) == Lower(t) <==> SameButCase(s, t)
    ensures Lower(s) == s <==> forall c :: c in s ==> !IsUpper(c)
    ensures Lower(Lower(s)) == Lower(s) && forall c :: c in Lower(s) ==> !IsUpper(c)
  {
    if Lower(s) == Lower(t) {
      forall i | 0 <= i < |s| ensures SameLetter(s[i], t[i]) {
        assert Lower(s)[i] == Lower(t)[i];
      }
    }
    if Lower(s) == s {
      forall c | c in s ensures !IsUpper(c) {
        var i :| 0 <= i < |s| && s[i] == c;
        assert Lower(s)[i] == s[i];
      }
    }
  }

  /** A flag is read whatever the case of its word, and from no other word. */
  lemma FlagWords(s: string)
    ensures StringToBool(Lower(s)) == Some(true) <==>
            SameButCase(s, "true") || SameButCase(s, "yes") || SameButCase(s, "on") || s == "1"
    ensures StringToBool(Lower(s)) == Some(false) <==>
            SameButCase(s, "false") || SameButCase(s, "no") || SameButCase(s, "off") || s == "0"
  {
    WordLowers(s, "true");
    WordLowers(s, "yes");
    WordLowers(s, "on");
    WordLowers(s, "1");
    WordLowers(s, "false");
    WordLowers(s, "no");
    WordLowers(s, "off");
    WordLowers(s, "0");
    hide Lower;
  }

  lemma WordLowers(s: string, word: string)
    requires forall c :: c in word ==> !IsUpper(c)
    ensures Lower(s) == word <==> SameButCase(s, word)
  {
    LowerForgetsCase(s, word);
    LowerForgetsCase(word, word);
  }

  function StringToBool(s: string): Option<bool> {
    if s == "true" || s == "yes" || s == "on" || s == "1" then Some(true)
    else if s == "false" || s == "no" || s == "off" || s == "0" then Some(false)
    else None
  }

  // ----- decimal integers

  function DigitChar(d: nat): (c: char)
    requires d < 10
    ensures IsDigit(c) && DigitValue(c) == d
  {
    '0' + d as char
  }

  function DigitValue(c: char): (d: nat)
    requires IsDigit(c)
    ensures d < 10
  {
    (c - '0') as int
  }

  predicate AllDigits(s: string) {
    forall i :: 0 <= i < |s| ==> IsDigit(s[i])
  }

  function Digits(n: nat): (s: string)
    ensures s != "" && AllDigits(s)
  {
    if n < 10 then [DigitChar(n)] else Digits(n / 10) + [DigitChar(n % 10)]
  }

  function Value(s: string): nat
    requires AllDigits(s)
  {
    if s == "" then 0 else 10 * Value(s[..|s| - 1]) + DigitValue(s[|s| - 1])
  }

  lemma ValueOneMore(s: string, c: char)
    requires AllDigits(s) && IsDigit(c)
    ensures Value(s + [c]) == 10 * Value(s) + DigitValue(c)
  {
    assert (s + [c])[..|s|] == s;
  }

  lemma {:induction false} ValueOfDigits(n: nat)
    ensures Value(Digits(n)) == n
  {
    if n >= 10 {
      ValueOfDigits(n / 10);
      assert Digits(n)[..|Digits(n)| - 1] == Digits(n / 10);
    }
  }

  function IntToString(n: int): (s: string)
    ensures s != "" && '\n' !in s && Trimmed(s)
  {
    if n < 0 then "-" + Digits(-n) else Digits(n)
  }

  datatype Number = Parsed(n: int) | Invalid | OutOfRange

  function LeadingDigits(s: string): (d: string)
    ensures AllDigits(d) && d <= s
  {
    if s == "" || !IsDigit(s[0]) then "" else [s[0]] + LeadingDigits(s[1..])
  }

  lemma {:induction false} LeadingDigitsAll(s: string)
    requires AllDigits(s)
    ensures LeadingDigits(s) == s
  {
    if s != "" {
      LeadingDigitsAll(s[1..]);
    }
  }

  /** std::stoi in base 10: white space, a sign, digits, and anything after them. */
  function Stoi(s: string): Number {
    if s != "" && IsSpace(s[0]) then Stoi(s[1..])
    else
      var signed := s != "" && (s[0] == '-' || s[0] == '+');
      var digits := LeadingDigits(if signed then s[1..] else s);
      if digits == "" then Invalid
      else
        var v: int := Value(digits);
        var n := if signed && s[0] == '-' then -v else v;
        if -TWO_TO_THE_31 <= n < TWO_TO_THE_31 then Parsed(n) else OutOfRange
  }

  /** The six characters of white space, by code. */
  lemma SpaceCodes(c: char)
    ensures IsSpace(c) <==> c as int == 32 || 9 <= c as int <= 13
  {
  }

  lemma {:induction false} StoiSkips(before: string, s: string)
    requires AllSpace(before)
    ensures Stoi(before + s) == Stoi(s)
  {
    hide Value, LeadingDigits;
    if before == "" {
      assert before + s == s;
    } else {
      StoiSkips(before[1..], s);
      assert (before + s)[1..] == before[1..] + s;
    }
  }

  lemma {:induction false} LeadingDigitsStop(digits: string, rest: string)
    requires AllDigits(digits) && (rest != "" ==> !IsDigit(rest[0]))
    ensures LeadingDigits(digits + rest) == digits
  {
    if digits == "" {
      assert digits + rest == rest;
    } else {
      LeadingDigitsStop(digits[1..], rest);
      assert (digits + rest)[1..] == digits[1..] + rest;
    }
  }

  /** std::stoi reads white space, at most one sign, all the digits that follow, and ignores the rest;
      without a digit there it fails, and so it does outside the range of a 32-bit int. */
  lemma StoiReads(before: string, sign: string, digits: string, rest: string)
    requires AllSpace(before) && sign in {"", "-", "+"}
    requires AllDigits(digits) && (rest != "" ==> !IsDigit(rest[0]))
    requires digits == "" && sign == "" && rest != "" ==> !IsSpace(rest[0]) && rest[0] != '-' && rest[0] != '+'
    ensures Stoi(before + sign + digits + rest) ==
            if digits == "" then Invalid
            else
              var v: int := Value(digits);
              var n := if sign == "-" then -v else v;
              if -0x8000_0000 <= n <= 0x7fff_ffff then Parsed(n) else OutOfRange
  {
    hide Value, LeadingDigits;
    var s := sign + digits + rest;
    assert before + sign + digits + rest == before + s;
    StoiSkips(before, s);
    LeadingDigitsStop(digits, rest);
    if sign == "" {
      assert s == digits + rest;
    } else {
      assert s[0] == sign[0] && s[1..] == digits + rest;
    }
    assert s != "" ==> !IsSpace(s[0]);
  }

  /** Printing a 32-bit int and reading it back. */
  lemma StoiOfPrinted(n: int)
    requires -TWO_TO_THE_31 <= n < TWO_TO_THE_31
    ensures Stoi(IntToString(n)) == Parsed(n)
  {
    hide Digits, Value, LeadingDigits;
    var m: nat := if n < 0 then -n else n;
    var d, s := Digits(m), IntToString(n);
    ValueOfDigits(m);
    LeadingDigitsAll(d);
    assert IsDigit(d[0]);
    if n < 0 {
      assert s[0] == '-' && s[1..] == d;
    }
  }
}
