/** The few Python string operations the plugins rely on: slicing, `in`, `startswith`,
    `split`, `join`, `strip`, `int()`, `%d` and `re.sub("\W+", "", s)`. */
module Text {
  import opened Wrappers

  /** Python's `s[n:]` for a non-negative `n`: empty once `n` is past the end. */
  function Drop(s: string, n: nat): (r: string)
    ensures |r| == if n <= |s| then |s| - n else 0
    ensures forall i :: 0 <= i < |r| ==> r[i] == s[n + i]
  {
    if n <= |s| then s[n..] else ""
  }

  /** Python's `s.startswith(prefix)`. */
  predicate StartsWith(s: string, prefix: string) {
    |prefix| <= |s| && s[..|prefix|] == prefix
  }

  /** `sub` occurs in `s` at index `i`. */
  predicate OccursAt(s: string, sub: string, i: int) {
    0 <= i && i + |sub| <= |s| && s[i..i + |sub|] == sub
  }

  /** The first index at or after `i` where `sub` occurs in `s`. */
  function FindFrom(s: string, sub: string, i: nat): (r: Option<nat>)
    requires i <= |s|
    ensures r.Some? ==> i <= r.value && OccursAt(s, sub, r.value)
    ensures r.Some? ==> forall j :: i <= j < r.value ==> !OccursAt(s, sub, j)
    ensures r.None? ==> forall j :: i <= j ==> !OccursAt(s, sub, j)
    decreases |s| - i
  {
    if OccursAt(s, sub, i) then Some(i)
    else if i == |s| then None
    else FindFrom(s, sub, i + 1)
  }

  /** Python's `sub in s`. */
  predicate Contains(s: string, sub: string) {
    FindFrom(s, sub, 0).Some?
  }

  lemma ContainsIff(s: string, sub: string)
    ensures Contains(s, sub) <==> exists i :: OccursAt(s, sub, i)
  {
  }

  lemma OccursInPrefix(s: string, sub: string, n: nat, j: int)
    requires n <= |s| && OccursAt(s[..n], sub, j)
    ensures OccursAt(s, sub, j)
  {
    assert s[..n][j..j + |sub|] == s[j..j + |sub|];
  }

  /** Python's `s.split(sep)` for a non-empty separator: the pieces between the
      left-to-right, non-overlapping occurrences of `sep`. */
  function Split(s: string, sep: string): (parts: seq<string>)
    requires sep != ""
    ensures |parts| >= 1
    ensures forall k :: 0 <= k < |parts| ==> !Contains(parts[k], sep)
    decreases |s|
  {
    match FindFrom(s, sep, 0)
    case None => [s]
    case Some(i) =>
      HeadLacksSep(s, sep, i);
      [s[..i]] + Split(s[i + |sep|..], sep)
  }

  /** The text before the first occurrence of `sep` does not contain it. */
  lemma HeadLacksSep(s: string, sep: string, i: nat)
    requires sep != "" && FindFrom(s, sep, 0) == Some(i)
    ensures !Contains(s[..i], sep)
  {
    if Contains(s[..i], sep) {
      var j := FindFrom(s[..i], sep, 0).value;
      OccursInPrefix(s, sep, i, j);
      assert false;
    }
  }

  /** Python's `sep.join(parts)`. */
  function Join(parts: seq<string>, sep: string): string
  {
    if |parts| == 0 then ""
    else if |parts| == 1 then parts[0]
    else parts[0] + sep + Join(parts[1..], sep)
  }

  /** Joining the pieces of a split with the same separator gives back the string. */
  lemma {:induction false} JoinSplit(s: string, sep: string)
    requires sep != ""
    ensures Join(Split(s, sep), sep) == s
    decreases |s|
  {
    var parts := Split(s, sep);
    match FindFrom(s, sep, 0)
    case None =>
      assert parts == [s];
    case Some(i) =>
      var rest := s[i + |sep|..];
      var tail := Split(rest, sep);
      assert parts == [s[..i]] + tail;
      assert parts[1..] == tail;
      JoinSplit(rest, sep);
      assert Join(parts, sep) == s[..i] + sep + Join(tail, sep);
      assert s[i..i + |sep|] == sep;
      assert s == s[..i] + s[i..i + |sep|] + rest;
  }

  lemma OccursChar(s: string, c: char, j: int)
    ensures OccursAt(s, [c], j) <==> 0 <= j < |s| && s[j] == c
  {
    if 0 <= j < |s| {
      assert s[j..j + 1] == [s[j]];
    }
  }

  lemma FindChar(s: string, c: char, r: Option<nat>)
    requires r == FindFrom(s, [c], 0)
    ensures r.Some? <==> c in s
    ensures r.Some? ==> r.value < |s| && s[r.value] == c && c !in s[..r.value]
  {
    if c in s {
      FindCharPresent(s, c);
    }
    if r.Some? {
      FindCharFirst(s, c, r.value);
    }
  }

  lemma FindCharPresent(s: string, c: char)
    requires c in s
    ensures FindFrom(s, [c], 0).Some?
  {
    var i :| 0 <= i < |s| && s[i] == c;
    OccursChar(s, c, i);
  }

  lemma FindCharFirst(s: string, c: char, v: nat)
    requires FindFrom(s, [c], 0) == Some(v)
    ensures v < |s| && s[v] == c && c !in s[..v]
  {
    OccursChar(s, c, v);
    var pre := s[..v];
    forall j | 0 <= j < |pre| ensures pre[j] != c {
      assert !OccursAt(s, [c], j);
      OccursChar(s, c, j);
    }
  }

  /** A character never occurs in the pieces of a split on that character. */
  lemma SplitCharParts(s: string, c: char, k: nat)
    requires k < |Split(s, [c])|
    ensures c !in Split(s, [c])[k]
  {
    var p := Split(s, [c])[k];
    FindChar(p, c, FindFrom(p, [c], 0));
  }

  /** Splitting on a single character undoes joining pieces that do not contain it. */
  lemma {:induction false} SplitJoinChar(parts: seq<string>, c: char)
    requires |parts| >= 1
    requires forall k :: 0 <= k < |parts| ==> c !in parts[k]
    ensures Split(Join(parts, [c]), [c]) == parts
  {
    var s := Join(parts, [c]);
    FindChar(s, c, FindFrom(s, [c], 0));
    if |parts| == 1 {
    } else {
      var rest := Join(parts[1..], [c]);
      assert s == parts[0] + [c] + rest;
      var i := |parts[0]|;
      assert s[i] == c;
      assert s[..i] == parts[0];
      assert FindFrom(s, [c], 0) == Some(i);
      assert s[i + 1..] == rest;
      SplitJoinChar(parts[1..], c);
    }
  }

  /** The text before the first space: Python's `s.split(' ')[0]`. */
  function Token(s: string): (r: string)
    ensures StartsWith(s, r)
    ensures ' ' !in r
    ensures |r| == |s| || s[|r|] == ' '
  {
    var parts := Split(s, " ");
    SplitCharParts(s, ' ', 0);
    match FindFrom(s, " ", 0)
    case None => parts[0]
    case Some(i) => FindChar(s, ' ', Some(i)); parts[0]
  }

  /** The first index at or after `i` whose character is not stripped, or the end. */
  function LeftCut(s: string, strip: char -> bool, i: nat): (c: nat)
    requires i <= |s|
    ensures i <= c <= |s|
    ensures forall k :: i <= k < c ==> strip(s[k])
    ensures c == |s| || !strip(s[c])
    decreases |s| - i
  {
    if i < |s| && strip(s[i]) then LeftCut(s, strip, i + 1) else i
  }

  /** The index just past the last character before `j`, and not before `lo`, that is not
      stripped; `lo` when there is none. */
  function RightCut(s: string, strip: char -> bool, lo: nat, j: nat): (c: nat)
    requires lo <= j <= |s|
    ensures lo <= c <= j
    ensures forall k :: c <= k < j ==> strip(s[k])
    ensures c == lo || !strip(s[c - 1])
  {
    if lo < j && strip(s[j - 1]) then RightCut(s, strip, lo, j - 1) else j
  }

  /** The cuts are the only indices with their properties. */
  lemma LeftCutIs(s: string, strip: char -> bool, i: nat, c: nat)
    requires i <= c <= |s| && (forall k :: i <= k < c ==> strip(s[k])) && (c == |s| || !strip(s[c]))
    ensures LeftCut(s, strip, i) == c
  {
  }

  lemma RightCutIs(s: string, strip: char -> bool, lo: nat, j: nat, c: nat)
    requires lo <= c <= j <= |s| && (forall k :: c <= k < j ==> strip(s[k])) && (c == lo || !strip(s[c - 1]))
    ensures RightCut(s, strip, lo, j) == c
  {
  }

  /** Drops the characters satisfying `strip` from the front. */
  function TrimLeft(s: string, strip: char -> bool): (r: string)
    ensures |r| <= |s| && r == s[|s| - |r|..]
    ensures forall i :: 0 <= i < |s| - |r| ==> strip(s[i])
    ensures r == "" || !strip(r[0])
  {
    s[LeftCut(s, strip, 0)..]
  }

  /** Every character of `w` is one that `strip` removes. */
  predicate AllStripped(w: string, strip: char -> bool) {
    forall k :: 0 <= k < |w| ==> strip(w[k])
  }

  /** The characters of `s` from `lo` up to `hi` are all stripped ones. */
  predicate StrippedBetween(s: string, lo: nat, hi: nat, strip: char -> bool)
    requires lo <= hi <= |s|
  {
    forall k :: lo <= k < hi ==> strip(s[k])
  }

  /** Python's `s.strip(chars)`, with the stripped characters given as a predicate: the
      middle of `s` left once the stripped characters are taken off both ends. */
  function Trim(s: string, strip: char -> bool): (r: string)
    ensures exists i, j :: (0 <= i <= j <= |s| && r == s[i..j] &&
                            StrippedBetween(s, 0, i, strip) && StrippedBetween(s, j, |s|, strip))
    ensures r == "" || (!strip(r[0]) && !strip(r[|r| - 1]))
  {
    var i := LeftCut(s, strip, 0);
    var j := RightCut(s, strip, i, |s|);
    assert StrippedBetween(s, 0, i, strip) && StrippedBetween(s, j, |s|, strip);
    s[i..j]
  }

  /** Stripped characters in front make no difference to the left trim, once a character
      that is kept follows them. */
  lemma TrimLeftTo(w: string, s: string, strip: char -> bool)
    requires AllStripped(w, strip) && s != "" && !strip(s[0])
    ensures TrimLeft(w + s, strip) == s
  {
    var t := w + s;
    forall k | 0 <= k < |w| ensures strip(t[k]) {
      assert t[k] == w[k];
    }
    assert t[|w|] == s[0];
    LeftCutIs(t, strip, 0, |w|);
    assert t[|w|..] == s;
  }

  /** Stripping text wrapped in stripped characters gives the text back, when the text
      itself neither starts nor ends with one. */
  lemma TrimAround(pre: string, core: string, post: string, strip: char -> bool)
    requires AllStripped(pre, strip) && AllStripped(post, strip)
    requires core == "" || (!strip(core[0]) && !strip(core[|core| - 1]))
    ensures Trim(pre + core + post, strip) == core
  {
    var s := pre + core + post;
    var e := |pre| + |core|;
    forall k | 0 <= k < |pre| ensures strip(s[k]) {
      assert s[k] == pre[k];
    }
    forall k | e <= k < |s| ensures strip(s[k]) {
      assert s[k] == post[k - e];
    }
    if core == "" {
      LeftCutIs(s, strip, 0, |s|);
      RightCutIs(s, strip, |s|, |s|, |s|);
    } else {
      assert s[|pre|] == core[0] && s[e - 1] == core[|core| - 1];
      LeftCutIs(s, strip, 0, |pre|);
      RightCutIs(s, strip, |pre|, |s|, e);
      assert s[|pre|..e] == core;
    }
  }

  /** A string that neither starts nor ends with a stripped character is its own trim. */
  lemma TrimNothing(s: string, strip: char -> bool)
    requires s == "" || (!strip(s[0]) && !strip(s[|s| - 1]))
    ensures Trim(s, strip) == s
  {
    TrimAround("", s, "", strip);
    assert "" + s + "" == s;
  }

  predicate IsSpaceChar(c: char) { c == ' ' }

  /** The characters Python 2's `str.strip()` and `int()` treat as whitespace. */
  predicate IsWhitespace(c: char) {
    c == ' ' || c == '\t' || c == '\n' || c == '\r' || c == '\U{B}' || c == '\U{C}'
  }

  predicate IsDigit(c: char) { '0' <= c <= '9' }

  predicate AllDigits(s: string) { forall i :: 0 <= i < |s| ==> IsDigit(s[i]) }

  /** The value of a run of decimal digits. */
  function DigitsValue(s: string): (n: nat)
    requires AllDigits(s)
  {
    if s == "" then 0 else DigitsValue(s[..|s| - 1]) * 10 + (s[|s| - 1] as int - '0' as int)
  }

  /** The value an optional sign and a run of digits denote. */
  function SignedValue(sg: string, ds: string): int
    requires AllDigits(ds)
  {
    if sg == "-" then -(DigitsValue(ds) as int) else DigitsValue(ds) as int
  }

  /** `t` is an optional sign, whitespace only after a sign, then at least one digit,
      and together they denote `n`. */
  ghost predicate SignedText(t: string, n: int) {
    exists sg, mid, ds :: (t == sg + mid + ds &&
      (sg == "" || sg == "+" || sg == "-") && (sg == "" ==> mid == "") &&
      AllStripped(mid, IsWhitespace) && ds != "" && AllDigits(ds) && n == SignedValue(sg, ds))
  }

  /** `s` is the text of the integer `n` as Python 2's `int()` reads it: whitespace, an
      optional sign, whitespace after the sign, at least one digit, whitespace. */
  ghost predicate IntText(s: string, n: int) {
    exists pre, t, post :: (s == pre + t + post &&
      AllStripped(pre, IsWhitespace) && AllStripped(post, IsWhitespace) && SignedText(t, n))
  }

  /** Python's `int(s)` in base 10; `None` where Python raises `ValueError`. */
  function ParseInt(s: string): Option<int> {
    ParseSigned(Trim(s, IsWhitespace))
  }

  /** `int()` reads only texts of the shape `IntText`, as the number they spell. */
  lemma ParseIntText(s: string)
    ensures ParseInt(s).Some? ==> IntText(s, ParseInt(s).value)
  {
    var t := Trim(s, IsWhitespace);
    ParseSignedText(t);
    if ParseSigned(t).Some? {
      TrimmedText(s, ParseSigned(t).value);
    }
  }

  /** A trimmed text that spells `n` leaves an untrimmed one that does too. */
  lemma TrimmedText(s: string, n: int)
    requires SignedText(Trim(s, IsWhitespace), n)
    ensures IntText(s, n)
  {
    var i, j :| 0 <= i <= j <= |s| && Trim(s, IsWhitespace) == s[i..j] &&
      StrippedBetween(s, 0, i, IsWhitespace) && StrippedBetween(s, j, |s|, IsWhitespace);
    SliceText(s, i, j, n);
  }

  lemma SliceText(s: string, i: nat, j: nat, n: int)
    requires i <= j <= |s| && SignedText(s[i..j], n)
    requires StrippedBetween(s, 0, i, IsWhitespace) && StrippedBetween(s, j, |s|, IsWhitespace)
    ensures IntText(s, n)
  {
    var pre, post := s[..i], s[j..];
    forall k | 0 <= k < |pre| ensures IsWhitespace(pre[k]) {
      assert pre[k] == s[k];
    }
    forall k | 0 <= k < |post| ensures IsWhitespace(post[k]) {
      assert post[k] == s[j + k];
    }
    assert s == pre + s[i..j] + post;
  }

  /** `int()` once the whitespace is stripped: an optional sign, whitespace after the sign
      (Python 2 skips it there too), then only digits. */
  function ParseSigned(t: string): Option<int> {
    if t != "" && (t[0] == '-' || t[0] == '+') then
      var ds := TrimLeft(t[1..], IsWhitespace);
      var v: int := if ds != "" && AllDigits(ds) then DigitsValue(ds) else 0;
      if ds != "" && AllDigits(ds) then Some(if t[0] == '-' then -v else v)
      else None
    else if t != "" && AllDigits(t) then Some(DigitsValue(t))
    else None
  }

  lemma ParseSignedText(t: string)
    ensures ParseSigned(t).Some? ==> SignedText(t, ParseSigned(t).value)
  {
    if t != "" && (t[0] == '-' || t[0] == '+') {
      var ds := TrimLeft(t[1..], IsWhitespace);
      if ds != "" && AllDigits(ds) {
        SignedParts(t, ds);
      }
    } else if t != "" && AllDigits(t) {
      assert t == "" + "" + t && SignedValue("", t) == DigitsValue(t) as int;
    }
  }

  /** A sign, the whitespace `TrimLeft` skips, and the digits make up the text. */
  lemma SignedParts(t: string, ds: string)
    requires t != "" && (t[0] == '-' || t[0] == '+')
    requires ds == TrimLeft(t[1..], IsWhitespace) && ds != "" && AllDigits(ds)
    ensures SignedText(t, SignedValue([t[0]], ds))
  {
    var u := t[1..];
    var mid := u[..|u| - |ds|];
    forall k | 0 <= k < |mid| ensures IsWhitespace(mid[k]) {
      assert mid[k] == u[k];
    }
    assert u == mid + ds;
    assert t == [t[0]] + mid + ds;
    assert [t[0]] == "-" <==> t[0] == '-';
  }

  /** Every text of the shape `int()` accepts is read as the number it spells. */
  lemma ParseIntOfText(s: string, n: int)
    requires IntText(s, n)
    ensures ParseInt(s) == Some(n)
  {
    var pre, t, post :| s == pre + t + post &&
      AllStripped(pre, IsWhitespace) && AllStripped(post, IsWhitespace) && SignedText(t, n);
    var sg, mid, ds :| t == sg + mid + ds &&
      (sg == "" || sg == "+" || sg == "-") && (sg == "" ==> mid == "") &&
      AllStripped(mid, IsWhitespace) && ds != "" && AllDigits(ds) && n == SignedValue(sg, ds);
    ParseIntOfParts(pre, sg, mid, ds, post);
  }

  lemma ParseIntOfParts(pre: string, sg: string, mid: string, ds: string, post: string)
    requires AllStripped(pre, IsWhitespace) && AllStripped(mid, IsWhitespace) && AllStripped(post, IsWhitespace)
    requires (sg == "" || sg == "+" || sg == "-") && (sg == "" ==> mid == "")
    requires ds != "" && AllDigits(ds)
    ensures ParseInt(pre + (sg + mid + ds) + post) == Some(SignedValue(sg, ds))
  {
    if sg == "" {
      ParseIntOfUnsigned(pre, ds, post);
    } else {
      ParseIntOfSigned(pre, sg, mid, ds, post);
    }
  }

  lemma ParseIntOfUnsigned(pre: string, ds: string, post: string)
    requires AllStripped(pre, IsWhitespace) && AllStripped(post, IsWhitespace)
    requires ds != "" && AllDigits(ds)
    ensures ParseInt(pre + ("" + "" + ds) + post) == Some(DigitsValue(ds) as int)
  {
    assert "" + "" + ds == ds;
    ParseIntSpaced(pre, ds, post);
  }

  lemma ParseIntOfSigned(pre: string, sg: string, mid: string, ds: string, post: string)
    requires AllStripped(pre, IsWhitespace) && AllStripped(mid, IsWhitespace) && AllStripped(post, IsWhitespace)
    requires sg == "+" || sg == "-"
    requires ds != "" && AllDigits(ds)
    ensures ParseInt(pre + (sg + mid + ds) + post) == Some(SignedValue(sg, ds))
  {
    var c := sg[0];
    Regroup(pre, sg, mid, ds, post);
    SignedValueOf(sg, ds);
    ParseIntSignSpaced(pre, c, mid, ds, post);
  }

  lemma SignedValueOf(sg: string, ds: string)
    requires (sg == "+" || sg == "-") && AllDigits(ds)
    ensures SignedValue(sg, ds) == if sg[0] == '-' then -(DigitsValue(ds) as int) else DigitsValue(ds) as int
  {
  }

  lemma Regroup(pre: string, sg: string, mid: string, ds: string, post: string)
    requires |sg| == 1
    ensures pre + (sg + mid + ds) + post == pre + [sg[0]] + mid + ds + post
  {
    assert sg == [sg[0]];
  }

  /** A text of the shape `int()` reads starts with whitespace, a sign or a digit. */
  lemma IntTextHead(s: string, n: int)
    requires IntText(s, n)
    ensures s != "" && (IsWhitespace(s[0]) || s[0] == '-' || s[0] == '+' || IsDigit(s[0]))
  {
    var pre, t, post :| (s == pre + t + post && AllStripped(pre, IsWhitespace) &&
      AllStripped(post, IsWhitespace) && SignedText(t, n));
    var sg, mid, ds :| (t == sg + mid + ds &&
      (sg == "" || sg == "+" || sg == "-") && (sg == "" ==> mid == "") &&
      AllStripped(mid, IsWhitespace) && ds != "" && AllDigits(ds) && n == SignedValue(sg, ds));
    if pre != "" {
      assert s[0] == pre[0];
    } else if sg != "" {
      assert s[0] == sg[0];
    } else {
      assert s[0] == ds[0];
    }
  }

  /** A text that is not of that shape makes `int()` raise `ValueError`. */
  lemma ParseIntRejects(s: string)
    requires forall n :: !IntText(s, n)
    ensures ParseInt(s).None?
  {
    ParseIntText(s);
  }

  function DigitChar(d: nat): (c: char)
    requires d < 10
    ensures IsDigit(c) && c as int - '0' as int == d
  {
    ('0' as int + d) as char
  }

  /** The decimal digits of `n`, as Python's `%d` and `str()` print it. */
  function NatToString(n: nat): (s: string)
    ensures s != "" && AllDigits(s)
  {
    if n < 10 then [DigitChar(n)] else NatToString(n / 10) + [DigitChar(n % 10)]
  }

  function IntToString(n: int): (s: string)
    ensures s != ""
    ensures !IsWhitespace(s[0]) && !IsWhitespace(s[|s| - 1]) && s[|s| - 1] != ' '
  {
    if n < 0 then "-" + NatToString(-n) else NatToString(n)
  }

  lemma {:induction false} NatToStringValue(n: nat)
    ensures DigitsValue(NatToString(n)) == n
    decreases n
  {
    var s := NatToString(n);
    if n >= 10 {
      NatToStringValue(n / 10);
      assert s[..|s| - 1] == NatToString(n / 10);
    }
  }

  /** `int()` of a run of digits with whitespace around it. */
  lemma ParseIntSpaced(pre: string, ds: string, post: string)
    requires AllStripped(pre, IsWhitespace) && AllStripped(post, IsWhitespace)
    requires ds != "" && AllDigits(ds)
    ensures ParseInt(pre + ds + post) == Some(DigitsValue(ds) as int)
  {
    assert IsDigit(ds[0]) && IsDigit(ds[|ds| - 1]);
    TrimAround(pre, ds, post, IsWhitespace);
    UnsignedOf(ds);
  }

  /** `int()` of a sign and a run of digits, with whitespace around them and between them:
      `int(" - 5 ")` is -5. */
  lemma ParseIntSignSpaced(pre: string, sign: char, mid: string, ds: string, post: string)
    requires AllStripped(pre, IsWhitespace) && AllStripped(mid, IsWhitespace) && AllStripped(post, IsWhitespace)
    requires sign == '-' || sign == '+'
    requires ds != "" && AllDigits(ds)
    ensures ParseInt(pre + [sign] + mid + ds + post) ==
      Some(if sign == '-' then -(DigitsValue(ds) as int) else DigitsValue(ds) as int)
  {
    var core := [sign] + mid + ds;
    assert pre + [sign] + mid + ds + post == pre + core + post;
    assert core[0] == sign && core[|core| - 1] == ds[|ds| - 1];
    TrimAround(pre, core, post, IsWhitespace);
    ParseSignSpaced(sign, mid, ds);
  }

  /** The same, with nothing around the number. */
  lemma ParseIntSigned(sign: char, mid: string, ds: string)
    requires AllStripped(mid, IsWhitespace)
    requires sign == '-' || sign == '+'
    requires ds != "" && AllDigits(ds)
    ensures sign == '-' ==> ParseInt([sign] + mid + ds) == Some(-(DigitsValue(ds) as int))
    ensures sign == '+' ==> ParseInt([sign] + mid + ds) == Some(DigitsValue(ds) as int)
  {
    var s := [sign] + mid + ds;
    assert s[0] == sign && s[|s| - 1] == ds[|ds| - 1] && IsDigit(ds[|ds| - 1]);
    TrimNothing(s, IsWhitespace);
    ParseSignSpaced(sign, mid, ds);
  }

  lemma ParseSignSpaced(sign: char, mid: string, ds: string)
    requires AllStripped(mid, IsWhitespace)
    requires sign == '-' || sign == '+'
    requires ds != "" && AllDigits(ds)
    ensures ParseSigned([sign] + mid + ds) ==
      Some(if sign == '-' then -(DigitsValue(ds) as int) else DigitsValue(ds) as int)
  {
    var t := [sign] + mid + ds;
    assert t[0] == sign && t[1..] == mid + ds;
    assert IsDigit(ds[0]);
    TrimLeftTo(mid, ds, IsWhitespace);
    SignedOf(t, ds);
  }

  lemma UnsignedOf(ds: string)
    requires ds != "" && AllDigits(ds)
    ensures ParseSigned(ds) == Some(DigitsValue(ds) as int)
  {
    assert IsDigit(ds[0]);
  }

  lemma SignedOf(t: string, ds: string)
    requires t != "" && (t[0] == '-' || t[0] == '+')
    requires TrimLeft(t[1..], IsWhitespace) == ds && ds != "" && AllDigits(ds)
    ensures ParseSigned(t) == Some(if t[0] == '-' then -(DigitsValue(ds) as int) else DigitsValue(ds) as int)
  {
  }

  /** `int()` reads back what `%d` prints. */
  lemma ParseIntToString(n: int)
    ensures ParseInt(IntToString(n)) == Some(n)
  {
    IntToStringText(n);
    ParseIntOfText(IntToString(n), n);
  }

  /** What `%d` prints has the shape `int()` reads, spelling the same number. */
  lemma IntToStringText(n: int)
    ensures IntText(IntToString(n), n)
  {
    if n < 0 {
      NegativeText(-n);
    } else {
      NatToStringValue(n);
      DigitsText(NatToString(n));
    }
  }

  /** A run of digits spells its value. */
  lemma DigitsText(ds: string)
    requires ds != "" && AllDigits(ds)
    ensures IntText(ds, DigitsValue(ds) as int)
  {
    assert SignedText(ds, DigitsValue(ds) as int) by {
      assert ds == "" + "" + ds && SignedValue("", ds) == DigitsValue(ds) as int;
    }
    assert ds == "" + ds + "";
  }

  /** A minus sign, whitespace and digits spell the negated digits. */
  lemma MinusText(mid: string, ds: string)
    requires AllStripped(mid, IsWhitespace) && ds != "" && AllDigits(ds)
    ensures IntText("-" + mid + ds, -(DigitsValue(ds) as int))
  {
    var t := "-" + mid + ds;
    assert SignedText(t, -(DigitsValue(ds) as int)) by {
      assert t == "-" + mid + ds && SignedValue("-", ds) == -(DigitsValue(ds) as int);
    }
    assert t == "" + t + "";
  }

  lemma NegativeText(m: nat)
    requires m > 0
    ensures IntText(IntToString(-(m as int)), -(m as int))
  {
    var ds := NatToString(m);
    NatToStringValue(m);
    assert IntToString(-(m as int)) == "-" + "" + ds;
    MinusText("", ds);
  }

  /** The characters of Python 2's `\w` without the Unicode flag. */
  predicate IsWordChar(c: char) {
    'a' <= c <= 'z' || 'A' <= c <= 'Z' || '0' <= c <= '9' || c == '_'
  }

  /** `re.sub("\W+", "", s)`: every non-word character removed. */
  function WordChars(s: string): (r: string)
    ensures |r| <= |s|
    ensures forall i :: 0 <= i < |r| ==> IsWordChar(r[i])
    ensures forall c :: IsWordChar(c) ==> multiset(r)[c] == multiset(s)[c]
    ensures forall c :: !IsWordChar(c) ==> c !in r
  {
    if s == "" then ""
    else
      var rest := WordChars(s[1..]);
      assert s == [s[0]] + s[1..];
      if IsWordChar(s[0]) then [s[0]] + rest else rest
  }

  /** A string of word characters only is left as it is. */
  lemma {:induction false} WordCharsOfWord(s: string)
    requires forall i :: 0 <= i < |s| ==> IsWordChar(s[i])
    ensures WordChars(s) == s
  {
    if s != "" {
      WordCharsOfWord(s[1..]);
    }
  }

  /** Removing non-word characters twice removes nothing more. */
  lemma WordCharsIdempotent(s: string)
    ensures WordChars(WordChars(s)) == WordChars(s)
  {
    WordCharsOfWord(WordChars(s));
  }

  /** Removal works piecewise: the word characters of a concatenation, in order. */
  lemma {:induction false} WordCharsConcat(a: string, b: string)
    ensures WordChars(a + b) == WordChars(a) + WordChars(b)
  {
    if a == "" {
      assert a + b == b;
    } else {
      var ab := a + b;
      assert ab[0] == a[0];
      assert ab[1..] == a[1..] + b;
      WordCharsConcat(a[1..], b);
    }
  }

  /** Joining one more piece adds the separator and the piece at the end. */
  lemma {:induction false} JoinAppend(parts: seq<string>, x: string, sep: string)
    ensures Join(parts + [x], sep) == if parts == [] then x else Join(parts, sep) + sep + x
    decreases |parts|
  {
    if |parts| == 1 {
      assert parts + [x] == [parts[0], x];
    } else if |parts| > 1 {
      assert (parts + [x])[1..] == parts[1..] + [x];
      JoinAppend(parts[1..], x, sep);
    }
  }

  /** Splitting on a character gives one piece more than the character occurs. */
  lemma {:induction false} SplitCharCount(s: string, c: char)
    ensures |Split(s, [c])| == multiset(s)[c] + 1
    decreases |s|
  {
    var r := FindFrom(s, [c], 0);
    FindChar(s, c, r);
    if r.Some? {
      var i := r.value;
      var rest := s[i + 1..];
      SplitCharCount(rest, c);
      assert s == s[..i] + [c] + rest;
      assert multiset(s) == multiset(s[..i]) + multiset{c} + multiset(rest);
      assert multiset(s[..i])[c] == 0;
    } else {
      assert multiset(s)[c] == 0;
    }
  }

  /** Python 2's comparison of byte strings: the first differing character decides, and a
      proper prefix comes first. */
  predicate LexLe(a: string, b: string)
    decreases |a|
  {
    a == "" || (b != "" && (a[0] < b[0] || (a[0] == b[0] && LexLe(a[1..], b[1..]))))
  }

  lemma {:induction false} LexLeTotal(a: string, b: string)
    ensures LexLe(a, b) || LexLe(b, a)
    decreases |a|
  {
    if a != "" && b != "" && a[0] == b[0] {
      LexLeTotal(a[1..], b[1..]);
    }
  }

  lemma {:induction false} LexLeTransitive(a: string, b: string, c: string)
    requires LexLe(a, b) && LexLe(b, c)
    ensures LexLe(a, c)
    decreases |a|
  {
    if a != "" && a[0] == b[0] && b[0] == c[0] {
      LexLeTransitive(a[1..], b[1..], c[1..]);
    }
  }

  lemma {:induction false} LexLeAntisymmetric(a: string, b: string)
    requires LexLe(a, b) && LexLe(b, a)
    ensures a == b
    decreases |a|
  {
    if a != "" {
      LexLeAntisymmetric(a[1..], b[1..]);
      assert a == [a[0]] + a[1..] && b == [b[0]] + b[1..];
    }
  }
}
