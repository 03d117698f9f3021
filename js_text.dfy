/**
 The JavaScript string operations the dashboard server relies on, stated
 over `string` (a sequence of characters): `split` on a character and on
 the pattern /\s+/, `trim`, `replace(/:/, ' ')`, `startsWith`, and
 `parseInt(s, 10)`, with the decimal rendering of a natural number as the
 inverse of `parseInt`.
 */
module JsText {

  datatype Option<+T> = None | Some(value: T)

  /** ECMAScript WhiteSpace and LineTerminator code points: exactly what
      `String.prototype.trim` strips and what `\s` matches. */
  predicate IsSpace(c: char) {
    var n := c as int;
    if n <= 0x20 then
      n == 0x20 || 0x09 <= n <= 0x0D
    else
      0xA0 <= n &&
      (n == 0xA0 || n == 0x1680 || (0x2000 <= n <= 0x200A) || n == 0x2028 ||
       n == 0x2029 || n == 0x202F || n == 0x205F || n == 0x3000 || n == 0xFEFF)
  }

  predicate IsDigit(c: char) {
    '0' <= c <= '9'
  }

  /** No character of `w` is whitespace. */
  predicate NoSpace(w: string) {
    forall k :: 0 <= k < |w| ==> !IsSpace(w[k])
  }

  predicate AllDigits(w: string) {
    forall k :: 0 <= k < |w| ==> IsDigit(w[k])
  }

  /** Digits are neither whitespace nor a line break. */
  lemma DigitsNoSpace(w: string)
    requires AllDigits(w)
    ensures NoSpace(w) && '\n' !in w
  {
    forall k | 0 <= k < |w| ensures !IsSpace(w[k]) && w[k] != '\n' {
      assert IsDigit(w[k]);
    }
  }

  // ---------------------------------------------------------------------
  // Splitting on a separator character: `s.split("\n")`

  /** The index of the first occurrence of `c` in `s`, or `|s|` if none. */
  function IndexOf(s: string, c: char): (i: nat)
    ensures i <= |s|
  {
    if s == [] || s[0] == c then 0 else 1 + IndexOf(s[1..], c)
  }

  /** `IndexOf` finds `c`, and no earlier `c`. */
  lemma {:induction false} IndexOfSpec(s: string, c: char)
    ensures IndexOf(s, c) < |s| ==> s[IndexOf(s, c)] == c
    ensures forall k :: 0 <= k < IndexOf(s, c) ==> s[k] != c
  {
    if s != [] && s[0] != c {
      IndexOfSpec(s[1..], c);
    }
  }

  lemma IndexOfAbsent(s: string, c: char)
    requires c !in s
    ensures IndexOf(s, c) == |s|
  {
    IndexOfSpec(s, c);
  }

  lemma IndexOfAfter(a: string, c: char, b: string)
    requires c !in a
    ensures IndexOf(a + [c] + b, c) == |a|
  {
    var s := a + [c] + b;
    IndexOfSpec(s, c);
    assert s[|a|] == c;
  }

  /** JavaScript `s.split(sep)` for a one-character separator: the pieces
      between successive occurrences of `sep`; never empty. */
  function SplitOn(s: string, sep: char): (r: seq<string>)
    ensures |r| >= 1
    decreases |s|
  {
    var i := IndexOf(s, sep);
    if i == |s| then [s] else [s[..i]] + SplitOn(s[i + 1..], sep)
  }

  /** No piece holds the separator. */
  lemma {:induction false} SplitOnPieces(s: string, sep: char)
    ensures forall i :: 0 <= i < |SplitOn(s, sep)| ==> sep !in SplitOn(s, sep)[i]
    decreases |s|
  {
    var i := IndexOf(s, sep);
    IndexOfSpec(s, sep);
    if i == |s| {
      assert SplitOn(s, sep) == [s];
    } else {
      SplitOnPieces(s[i + 1..], sep);
      var r := SplitOn(s, sep);
      assert r[0] == s[..i];
      assert r[1..] == SplitOn(s[i + 1..], sep);
    }
  }

  /** JavaScript `ls.join(sep)` for a one-character separator. */
  function JoinWith(ls: seq<string>, sep: char): string
  {
    if ls == [] then ""
    else if |ls| == 1 then ls[0]
    else ls[0] + [sep] + JoinWith(ls[1..], sep)
  }

  /** The first piece ends at the first separator. */
  lemma SplitOnAt(a: string, sep: char, b: string)
    requires sep !in a
    ensures SplitOn(a + [sep] + b, sep) == [a] + SplitOn(b, sep)
  {
    var s := a + [sep] + b;
    IndexOfAfter(a, sep, b);
    assert s[..|a|] == a;
    assert s[|a| + 1..] == b;
  }

  lemma JoinCons(h: string, rest: seq<string>, sep: char)
    requires rest != []
    ensures JoinWith([h] + rest, sep) == h + [sep] + JoinWith(rest, sep)
  {
    assert ([h] + rest)[1..] == rest;
  }

  /** Splitting undoes joining, when no piece contains the separator. */
  lemma {:induction false} SplitJoin(ls: seq<string>, sep: char)
    requires |ls| >= 1
    requires forall i :: 0 <= i < |ls| ==> sep !in ls[i]
    ensures SplitOn(JoinWith(ls, sep), sep) == ls
  {
    if |ls| == 1 {
      IndexOfAbsent(ls[0], sep);
    } else {
      var head, tail := ls[0], ls[1..];
      assert forall i :: 0 <= i < |tail| ==> tail[i] == ls[i + 1];
      SplitJoin(tail, sep);
      var rest := JoinWith(tail, sep);
      assert JoinWith(ls, sep) == head + [sep] + rest;
      SplitOnAt(head, sep, rest);
      assert ls == [head] + tail;
    }
  }

  /** Joining undoes splitting. */
  lemma {:induction false} JoinSplit(s: string, sep: char)
    ensures JoinWith(SplitOn(s, sep), sep) == s
    decreases |s|
  {
    var i := IndexOf(s, sep);
    if i == |s| {
      assert s[..i] == s;
    } else {
      IndexOfSpec(s, sep);
      JoinSplit(s[i + 1..], sep);
      var r := SplitOn(s, sep);
      assert r[1..] == SplitOn(s[i + 1..], sep);
      assert s == s[..i] + [sep] + s[i + 1..];
    }
  }

  // ---------------------------------------------------------------------
  // Whitespace runs, `trim` and `split(/\s+/)`

  /** The length of the whitespace run at the start of `s`. */
  function SpaceRun(s: string): (n: nat)
    ensures n <= |s|
  {
    if s == [] || !IsSpace(s[0]) then 0 else 1 + SpaceRun(s[1..])
  }

  /** The run is whitespace and stops before a non-space character. */
  lemma {:induction false} SpaceRunSpec(s: string)
    ensures forall k :: 0 <= k < SpaceRun(s) ==> IsSpace(s[k])
    ensures SpaceRun(s) < |s| ==> !IsSpace(s[SpaceRun(s)])
  {
    if s != [] && IsSpace(s[0]) {
      SpaceRunSpec(s[1..]);
    }
  }

  /** Whitespace, then a non-space character: the run is the whitespace. */
  lemma {:induction false} SpaceRunPad(pad: string, x: string)
    requires forall k :: 0 <= k < |pad| ==> IsSpace(pad[k])
    requires x != [] && !IsSpace(x[0])
    ensures SpaceRun(pad + x) == |pad|
  {
    if pad == [] {
      assert pad + x == x;
    } else {
      assert (pad + x)[0] == pad[0];
      assert (pad + x)[1..] == pad[1..] + x;
      SpaceRunPad(pad[1..], x);
    }
  }

  /** The length of the non-whitespace run at the start of `s`. */
  function WordRun(s: string): (n: nat)
    ensures n <= |s|
  {
    if s == [] || IsSpace(s[0]) then 0 else 1 + WordRun(s[1..])
  }

  /** The run holds no whitespace and stops before whitespace. */
  lemma {:induction false} WordRunSpec(s: string)
    ensures forall k :: 0 <= k < WordRun(s) ==> !IsSpace(s[k])
    ensures WordRun(s) < |s| ==> IsSpace(s[WordRun(s)])
  {
    if s != [] && !IsSpace(s[0]) {
      WordRunSpec(s[1..]);
    }
  }

  lemma {:induction false} WordRunAll(w: string)
    requires NoSpace(w)
    ensures WordRun(w) == |w|
  {
    if w != [] {
      WordRunAll(w[1..]);
    }
  }

  lemma {:induction false} WordRunPrefix(w: string, rest: string)
    requires NoSpace(w)
    requires rest != [] && IsSpace(rest[0])
    ensures WordRun(w + rest) == |w|
  {
    if w == [] {
      assert w + rest == rest;
    } else {
      assert (w + rest)[0] == w[0];
      assert (w + rest)[1..] == w[1..] + rest;
      WordRunPrefix(w[1..], rest);
    }
  }

  function TrimEnd(s: string): (t: string)
    ensures |t| <= |s| && t == s[..|t|]
  {
    if s == [] || !IsSpace(s[|s| - 1]) then s
    else TrimEnd(s[..|s| - 1])
  }

  /** `TrimEnd` stops at a non-space character and drops only whitespace. */
  lemma {:induction false} TrimEndSpec(s: string)
    ensures var t := TrimEnd(s);
      (t == [] || !IsSpace(t[|t| - 1])) && forall k :: |t| <= k < |s| ==> IsSpace(s[k])
  {
    if s != [] && IsSpace(s[|s| - 1]) {
      TrimEndSpec(s[..|s| - 1]);
    }
  }

  /** JavaScript `s.trim()`: `s` without its leading and trailing whitespace. */
  function Trim(s: string): (t: string)
    ensures |t| <= |s|
  {
    TrimEnd(s[SpaceRun(s)..])
  }

  /** A trimmed string neither begins nor ends with whitespace. */
  lemma TrimEnds(s: string)
    ensures var t := Trim(s); t == [] || (!IsSpace(t[0]) && !IsSpace(t[|t| - 1]))
  {
    var u := s[SpaceRun(s)..];
    SpaceRunSpec(s);
    TrimEndSpec(u);
    var t := TrimEnd(u);
    assert t != [] ==> t[0] == u[0];
  }

  lemma TrimUnpadded(pad: string, x: string)
    requires forall k :: 0 <= k < |pad| ==> IsSpace(pad[k])
    requires x != [] && !IsSpace(x[0]) && !IsSpace(x[|x| - 1])
    ensures Trim(pad + x) == x
  {
    var s := pad + x;
    SpaceRunPad(pad, x);
    assert s[|pad|..] == x;
  }

  /** JavaScript `s.split(/\s+/)`: the pieces of `s` between its maximal
      whitespace runs. */
  function SplitWs(s: string): (r: seq<string>)
    ensures |r| >= 1
    decreases |s|
  {
    var i := WordRun(s);
    if i == |s| then [s]
    else
      var rest := s[i..];
      [s[..i]] + SplitWs(rest[SpaceRun(rest)..])
  }

  /** No piece holds whitespace; on a trimmed, non-empty `s` no piece is
      empty either. */
  lemma {:induction false} SplitWsPieces(s: string)
    ensures forall i :: 0 <= i < |SplitWs(s)| ==> NoSpace(SplitWs(s)[i])
    ensures s != [] && !IsSpace(s[0]) && !IsSpace(s[|s| - 1]) ==>
              forall i :: 0 <= i < |SplitWs(s)| ==> SplitWs(s)[i] != []
    decreases |s|
  {
    var i := WordRun(s);
    WordRunSpec(s);
    if i == |s| {
      assert s[..i] == s;
    } else {
      var rest := s[i..];
      var j := SpaceRun(rest);
      SpaceRunSpec(rest);
      assert rest[|rest| - 1] == s[|s| - 1];
      SplitWsPieces(rest[j..]);
      var r := SplitWs(s);
      assert r[1..] == SplitWs(rest[j..]);
    }
  }

  /** Whitespace only (possibly nothing). */
  predicate AllSpace(s: string) {
    forall k :: 0 <= k < |s| ==> IsSpace(s[k])
  }

  /** Words separated by the given whitespace runs:
      `ws[0] + gaps[0] + ws[1] + ... + ws[|ws| - 1]`. */
  function Interleave(ws: seq<string>, gaps: seq<string>): string
    requires |ws| >= 1 && |gaps| == |ws| - 1
    decreases |ws|
  {
    if |ws| == 1 then ws[0] else ws[0] + gaps[0] + Interleave(ws[1..], gaps[1..])
  }

  /** One word, a non-empty whitespace run, then text that begins with a
      non-space character: the word is the first piece and the run is
      dropped however long it is. */
  lemma SplitWsWordGap(w: string, gap: string, tail: string)
    requires w != [] && NoSpace(w)
    requires gap != [] && AllSpace(gap)
    requires tail != [] && !IsSpace(tail[0])
    ensures SplitWs(w + gap + tail) == [w] + SplitWs(tail)
  {
    var s := w + gap + tail;
    assert s == w + (gap + tail);
    assert (gap + tail)[0] == gap[0];
    WordRunPrefix(w, gap + tail);
    var rest := s[|w|..];
    assert rest == gap + tail;
    SpaceRunPad(gap, tail);
    assert rest[|gap|..] == tail;
    assert s[..|w|] == w;
  }

  /** A run of non-empty words begins with the first word's first
      character and ends with the last word's last character. */
  lemma {:induction false} InterleaveEnds(ws: seq<string>, gaps: seq<string>)
    requires |ws| >= 1 && |gaps| == |ws| - 1
    requires forall i :: 0 <= i < |ws| ==> ws[i] != []
    ensures Interleave(ws, gaps) != []
    ensures Interleave(ws, gaps)[0] == ws[0][0]
    ensures Interleave(ws, gaps)[|Interleave(ws, gaps)| - 1] == ws[|ws| - 1][|ws[|ws| - 1]| - 1]
    decreases |ws|
  {
    if |ws| > 1 {
      InterleaveEnds(ws[1..], gaps[1..]);
    }
  }

  /** Splitting on whitespace recovers the words, whatever the lengths of
      the whitespace runs between them, when the words are non-empty and
      hold no whitespace. */
  lemma {:induction false} SplitWsInterleave(ws: seq<string>, gaps: seq<string>)
    requires |ws| >= 1 && |gaps| == |ws| - 1
    requires forall i :: 0 <= i < |ws| ==> ws[i] != [] && NoSpace(ws[i])
    requires forall i :: 0 <= i < |gaps| ==> gaps[i] != [] && AllSpace(gaps[i])
    ensures SplitWs(Interleave(ws, gaps)) == ws
    decreases |ws|
  {
    if |ws| == 1 {
      WordRunAll(ws[0]);
      assert ws[0][..|ws[0]|] == ws[0];
    } else {
      var tail := Interleave(ws[1..], gaps[1..]);
      InterleaveEnds(ws[1..], gaps[1..]);
      assert ws[0] != [] && NoSpace(ws[0]);
      assert gaps[0] != [] && AllSpace(gaps[0]);
      SplitWsWordGap(ws[0], gaps[0], tail);
      SplitWsInterleave(ws[1..], gaps[1..]);
      assert ws == [ws[0]] + ws[1..];
    }
  }

  /** A character in no word and no run is not in the result. */
  lemma {:induction false} InterleaveAvoids(ws: seq<string>, gaps: seq<string>, c: char)
    requires |ws| >= 1 && |gaps| == |ws| - 1
    requires forall i :: 0 <= i < |ws| ==> c !in ws[i]
    requires forall i :: 0 <= i < |gaps| ==> c !in gaps[i]
    ensures c !in Interleave(ws, gaps)
    decreases |ws|
  {
    if |ws| > 1 {
      InterleaveAvoids(ws[1..], gaps[1..], c);
      assert c !in ws[0] && c !in gaps[0];
    }
  }

  // ---------------------------------------------------------------------
  // `replace(/:/, ' ')` and `startsWith`

  /** JavaScript `s.replace(/c/, d)` for a one-character pattern: only the
      first occurrence of `c` is replaced. */
  function ReplaceFirst(s: string, c: char, d: char): (r: string)
    ensures |r| == |s|
  {
    var i := IndexOf(s, c);
    if i == |s| then s else s[..i] + [d] + s[i + 1..]
  }

  /** Without an occurrence, nothing is replaced. */
  lemma ReplaceFirstAbsent(s: string, c: char, d: char)
    requires c !in s
    ensures ReplaceFirst(s, c, d) == s
  {
    IndexOfAbsent(s, c);
  }

  /** Only the first occurrence is replaced: what follows it, further
      occurrences included, is kept. */
  lemma ReplaceFirstAt(a: string, c: char, d: char, b: string)
    requires c !in a
    ensures ReplaceFirst(a + [c] + b, c, d) == a + [d] + b
  {
    var s := a + [c] + b;
    IndexOfAfter(a, c, b);
    assert s[..|a|] == a;
    assert s[|a| + 1..] == b;
  }

  predicate StartsWith(s: string, prefix: string) {
    |prefix| <= |s| && s[..|prefix|] == prefix
  }

  // ---------------------------------------------------------------------
  // `parseInt(s, 10)` and decimal rendering

  /** The length of the decimal-digit run at the start of `s`. */
  function DigitRun(s: string): (n: nat)
    ensures n <= |s|
    ensures AllDigits(s[..n])
    ensures n < |s| ==> !IsDigit(s[n])
  {
    if s == [] || !IsDigit(s[0]) then 0
    else
      var m := DigitRun(s[1..]);
      assert s[..m + 1] == [s[0]] + s[1..][..m];
      1 + m
  }

  lemma {:induction false} DigitRunAll(d: string)
    requires AllDigits(d)
    ensures DigitRun(d) == |d|
  {
    if d != [] {
      DigitRunAll(d[1..]);
    }
  }

  function DigitValue(c: char): (v: nat)
    requires IsDigit(c)
    ensures v < 10
  {
    c as int - '0' as int
  }

  function DigitChar(v: nat): (c: char)
    requires v < 10
    ensures IsDigit(c) && DigitValue(c) == v
  {
    ('0' as int + v) as char
  }

  /** The value of a string of decimal digits, most significant first. */
  function DigitsValue(d: string): nat
    requires AllDigits(d)
  {
    if d == [] then 0
    else DigitsValue(d[..|d| - 1]) * 10 + DigitValue(d[|d| - 1])
  }

  /** The decimal rendering of `n`, without leading zeros. */
  function Decimal(n: nat): (d: string)
    ensures d != [] && AllDigits(d)
  {
    if n < 10 then [DigitChar(n)]
    else Decimal(n / 10) + [DigitChar(n % 10)]
  }

  lemma {:induction false} DecimalValue(n: nat)
    ensures DigitsValue(Decimal(n)) == n
  {
    if n >= 10 {
      DecimalValue(n / 10);
      var d := Decimal(n);
      assert d[..|d| - 1] == Decimal(n / 10);
    }
  }

  /** JavaScript `parseInt(s, 10)`: leading whitespace skipped, an optional
      sign, then the longest run of decimal digits; `None` stands for NaN,
      the result when there is no digit. */
  function ParseInt10(s: string): (r: Option<int>)
  {
    var t := s[SpaceRun(s)..];
    var negative := t != [] && t[0] == '-';
    var u := if t != [] && (t[0] == '-' || t[0] == '+') then t[1..] else t;
    match DigitsPrefix(u)
    case None => None
    case Some(v) => if negative then Some(-(v as int)) else Some(v)
  }

  /** The value of the digit run at the start of `u`; `None` when there is
      no digit. */
  function DigitsPrefix(u: string): Option<nat> {
    var n := DigitRun(u);
    if n == 0 then None else Some(DigitsValue(u[..n]))
  }

  /** Digits followed by a non-digit: the prefix is the digits' value. */
  lemma DigitsPrefixOf(d: string, rest: string)
    requires d != [] && AllDigits(d)
    requires rest == [] || !IsDigit(rest[0])
    ensures DigitsPrefix(d + rest) == Some(DigitsValue(d))
  {
    DigitRunThen(d, rest);
    assert (d + rest)[..|d|] == d;
  }

  /** A string that is empty, or begins with neither whitespace, a digit
      nor a sign, is NaN. */
  lemma ParseIntNoNumber(s: string)
    requires s == [] || !(IsSpace(s[0]) || IsDigit(s[0]) || s[0] == '-' || s[0] == '+')
    ensures ParseInt10(s) == None
  {
    assert s[0..] == s;
  }

  /** Leading whitespace is skipped. */
  lemma ParseIntSkipsSpace(pad: string, x: string)
    requires forall k :: 0 <= k < |pad| ==> IsSpace(pad[k])
    requires x != [] && !IsSpace(x[0])
    ensures ParseInt10(pad + x) == ParseInt10(x)
  {
    SpaceRunPad(pad, x);
    assert (pad + x)[|pad|..] == x;
    assert !IsSpace(x[0]) && x[0..] == x;
  }

  /** Digits: their value; what follows the digits is ignored. */
  lemma ParseIntPlain(d: string, rest: string)
    requires d != [] && AllDigits(d)
    requires rest == [] || !IsDigit(rest[0])
    ensures ParseInt10(d + rest) == Some(DigitsValue(d))
  {
    var u := d + rest;
    assert u[0] == d[0];
    assert !IsSpace(u[0]) && u[0..] == u;
    DigitsPrefixOf(d, rest);
  }

  /** A leading sign: the digits after it, negated for a minus sign. */
  lemma ParseIntSigned(x: string)
    requires x != [] && (x[0] == '-' || x[0] == '+')
    ensures ParseInt10(x) ==
              match DigitsPrefix(x[1..])
              case None => None
              case Some(v) => if x[0] == '-' then Some(-(v as int)) else Some(v)
  {
    assert !IsSpace(x[0]);
    assert SpaceRun(x) == 0;
    assert x[0..] == x;
  }

  /** A sign, then digits: the digits' value, negated for a minus sign. */
  lemma ParseIntSign(sign: char, d: string, rest: string)
    requires sign == '-' || sign == '+'
    requires d != [] && AllDigits(d)
    requires rest == [] || !IsDigit(rest[0])
    ensures ParseInt10([sign] + d + rest) ==
              Some(if sign == '-' then -(DigitsValue(d) as int) else DigitsValue(d))
  {
    var x := [sign] + d + rest;
    assert x[0] == sign && x[1..] == d + rest;
    DigitsPrefixOf(d, rest);
    ParseIntSignedValue(x, DigitsValue(d));
  }

  lemma ParseIntSignedValue(x: string, v: nat)
    requires x != [] && (x[0] == '-' || x[0] == '+')
    requires DigitsPrefix(x[1..]) == Some(v)
    ensures ParseInt10(x) == Some(if x[0] == '-' then -(v as int) else v)
  {
    ParseIntSigned(x);
  }

  lemma {:induction false} DigitRunThen(d: string, rest: string)
    requires AllDigits(d)
    requires rest == [] || !IsDigit(rest[0])
    ensures DigitRun(d + rest) == |d|
  {
    if d == [] {
      assert d + rest == rest;
    } else {
      assert (d + rest)[0] == d[0];
      assert (d + rest)[1..] == d[1..] + rest;
      DigitRunThen(d[1..], rest);
    }
  }

  /** `parseInt` reads back what `Decimal` writes. */
  lemma DecimalParses(n: nat)
    ensures ParseInt10(Decimal(n)) == Some(n)
  {
    DecimalValue(n);
    ParseIntPlain(Decimal(n), []);
    assert Decimal(n) + [] == Decimal(n);
  }

  /** JavaScript `parseInt(x, 10) || 0` where `x` may be `undefined`
      (`None`): NaN, and so a missing token, becomes 0. */
  function ParseIntOrZero(token: Option<string>): int
  {
    match token
    case None => 0
    case Some(s) =>
      match ParseInt10(s)
      case None => 0
      case Some(v) => v
  }
}
