/**
 `readNetTotals` from server.js: the host's received and transmitted byte
 totals, summed from the kernel's network-statistics table. The table's
 text is a parameter (`None` when the file cannot be read); the loop over
 its lines is a method proved against the function `Totals`, and the
 lemmas say which lines contribute and what they contribute.
 */
module NetDev {
  import opened JsText

  datatype NetTotals = NetTotals(rx: int, tx: int)

  function Plus(a: NetTotals, b: NetTotals): NetTotals {
    NetTotals(a.rx + b.rx, a.tx + b.tx)
  }

  /** JavaScript `ls.slice(n)`: empty when `ls` is shorter than `n`. */
  function Drop(ls: seq<string>, n: nat): seq<string> {
    if |ls| <= n then [] else ls[n..]
  }

  /** JavaScript `ls.filter(Boolean)` over strings: the non-empty ones,
      in order. */
  function NonEmpty(ls: seq<string>): (r: seq<string>)
    ensures |r| <= |ls|
    ensures forall i :: 0 <= i < |r| ==> r[i] != []
    ensures forall x :: x in r <==> x in ls && x != []
  {
    if ls == [] then []
    else if |ls[|ls| - 1]| == 0 then NonEmpty(ls[..|ls| - 1])
    else NonEmpty(ls[..|ls| - 1]) + [ls[|ls| - 1]]
  }

  /** The lines the loop visits: the text split on newlines, without the
      two header lines, without empty lines. */
  function CounterLines(data: string): seq<string> {
    NonEmpty(Drop(SplitOn(data, '\n'), 2))
  }

  /** The whitespace-separated fields of one line once its first colon
      has become a space: the interface name, then the counters. */
  function LineParts(line: string): (parts: seq<string>)
    ensures |parts| >= 1
  {
    SplitWs(Trim(ReplaceFirst(line, ':', ' ')))
  }

  /** Loopback and container-internal virtual interfaces. */
  predicate IsExcluded(iface: string) {
    iface == "lo" || StartsWith(iface, "docker") || StartsWith(iface, "veth")
  }

  /** JavaScript `parts[k]`: `None` stands for `undefined`. */
  function Field(parts: seq<string>, k: nat): Option<string> {
    if k < |parts| then Some(parts[k]) else None
  }

  /** What one line adds to the totals: nothing for an excluded interface,
      otherwise field 1 (received bytes) and field 9 (transmitted bytes). */
  function LineTotals(line: string): NetTotals {
    PartsTotals(LineParts(line))
  }

  /** The same, from the line's fields. */
  function PartsTotals(parts: seq<string>): NetTotals
    requires |parts| >= 1
  {
    if IsExcluded(parts[0]) then NetTotals(0, 0)
    else NetTotals(ParseIntOrZero(Field(parts, 1)), ParseIntOrZero(Field(parts, 9)))
  }

  /** The sum of `f` over `ls`, taken from the last line back. */
  function SumOver(ls: seq<string>, f: string -> NetTotals): NetTotals {
    if ls == [] then NetTotals(0, 0)
    else Plus(SumOver(ls[..|ls| - 1], f), f(ls[|ls| - 1]))
  }

  /** The sum of `LineTotals` over `ls`. */
  function SumTotals(ls: seq<string>): NetTotals {
    SumOver(ls, LineTotals)
  }

  function Totals(data: string): NetTotals {
    SumTotals(CounterLines(data))
  }

  /** What `readNetTotals` returns: zeros when the file cannot be read. */
  function ReadResult(file: Option<string>): NetTotals {
    match file
    case None => NetTotals(0, 0)
    case Some(data) => Totals(data)
  }

  /** `readNetTotals`: the file's counter lines, summed. */
  method ReadNetTotals(file: Option<string>) returns (t: NetTotals)
    ensures t == ReadResult(file)
  {
    if file.None? {
      return NetTotals(0, 0);
    }
    t := SumCounterLines(CounterLines(file.value));
  }

  /** The loop of `readNetTotals`: for each line, its fields; an excluded
      interface is skipped, any other adds fields 1 and 9. */
  method SumCounterLines(lines: seq<string>) returns (t: NetTotals)
    ensures t == SumTotals(lines)
  {
    var rx, tx := 0, 0;
    for i := 0 to |lines|
      invariant NetTotals(rx, tx) == SumTotals(lines[..i])
    {
      SumTotalsStep(lines, i);
      var parts := LineParts(lines[i]);
      var iface := parts[0];
      if IsExcluded(iface) {
        continue;
      }
      var rxBytes := ParseIntOrZero(Field(parts, 1));
      var txBytes := ParseIntOrZero(Field(parts, 9));
      rx, tx := rx + rxBytes, tx + txBytes;
    }
    assert lines[..|lines|] == lines;
    return NetTotals(rx, tx);
  }

  // ---------------------------------------------------------------------
  // Sums over lines, for any per-line contribution

  /** One more line adds that line's contribution, computed from its
      fields. */
  lemma SumTotalsStep(ls: seq<string>, i: nat)
    requires i < |ls|
    ensures SumTotals(ls[..i + 1]) == Plus(SumTotals(ls[..i]), PartsTotals(LineParts(ls[i])))
  {
    SumOverStep(ls, i, LineTotals);
  }

  lemma SumOverStep(ls: seq<string>, i: nat, f: string -> NetTotals)
    requires i < |ls|
    ensures SumOver(ls[..i + 1], f) == Plus(SumOver(ls[..i], f), f(ls[i]))
  {
    assert ls[..i + 1][..i] == ls[..i];
  }

  lemma {:induction false} SumOverAppend(a: seq<string>, b: seq<string>, f: string -> NetTotals)
    ensures SumOver(a + b, f) == Plus(SumOver(a, f), SumOver(b, f))
    decreases |b|
  {
    if b == [] {
      assert a + b == a;
    } else {
      var b' := b[..|b| - 1];
      assert (a + b)[..|a + b| - 1] == a + b';
      SumOverAppend(a, b', f);
    }
  }

  /** Lines that contribute nothing can be dropped from the end. */
  lemma {:induction false} SumOverZeros(ls: seq<string>, dropped: seq<string>, f: string -> NetTotals)
    requires forall i :: 0 <= i < |dropped| ==> f(dropped[i]) == NetTotals(0, 0)
    ensures SumOver(ls + dropped, f) == SumOver(ls, f)
    decreases |dropped|
  {
    if dropped == [] {
      assert ls + dropped == ls;
    } else {
      var d' := dropped[..|dropped| - 1];
      assert (ls + dropped)[..|ls + dropped| - 1] == ls + d';
      SumOverZeros(ls, d', f);
    }
  }

  /** A line that contributes nothing can be inserted anywhere. */
  lemma SumOverInsertZero(ls: seq<string>, k: nat, e: string, f: string -> NetTotals)
    requires k <= |ls| && f(e) == NetTotals(0, 0)
    ensures SumOver(ls[..k] + [e] + ls[k..], f) == SumOver(ls, f)
  {
    SumOverSplice(ls[..k], ls[k..], e, f);
    assert ls[..k] + ls[k..] == ls;
  }

  lemma SumOverSplice(a: seq<string>, b: seq<string>, e: string, f: string -> NetTotals)
    requires f(e) == NetTotals(0, 0)
    ensures SumOver(a + [e] + b, f) == SumOver(a + b, f)
  {
    var ae := a + [e];
    assert ae[..|ae| - 1] == a && ae[|ae| - 1] == e;
    assert SumOver(ae, f) == SumOver(a, f);
    SumOverAppend(ae, b, f);
    SumOverAppend(a, b, f);
  }

  /** Filtering out the empty lines leaves the sum as it is when empty
      lines contribute nothing. */
  lemma {:induction false} SumOverNonEmpty(ls: seq<string>, f: string -> NetTotals)
    requires forall i :: 0 <= i < |ls| && |ls[i]| == 0 ==> f(ls[i]) == NetTotals(0, 0)
    ensures SumOver(NonEmpty(ls), f) == SumOver(ls, f)
  {
    if ls != [] {
      var init, last := ls[..|ls| - 1], ls[|ls| - 1];
      assert forall i :: 0 <= i < |init| ==> init[i] == ls[i];
      SumOverNonEmpty(init, f);
      if |last| == 0 {
        assert NonEmpty(ls) == NonEmpty(init);
      } else {
        var r := NonEmpty(init) + [last];
        assert NonEmpty(ls) == r;
        assert r[..|r| - 1] == NonEmpty(init);
      }
    }
  }

  // ---------------------------------------------------------------------
  // Which lines contribute

  /** An empty line adds nothing: it has one field, the empty interface
      name, and no counters. */
  lemma EmptyLineTotals(e: string)
    requires |e| == 0
    ensures LineTotals(e) == NetTotals(0, 0)
  {
    ReplaceFirstAbsent(e, ':', ' ');
    assert SpaceRun(e) == 0 && e[0..] == e;
    assert Trim(e) == e;
    assert WordRun(e) == 0;
    assert LineParts(e) == [e];
  }

  /** Dropping the empty lines leaves the sum as it is. */
  lemma NonEmptySum(ls: seq<string>)
    ensures SumTotals(NonEmpty(ls)) == SumTotals(ls)
  {
    forall i | 0 <= i < |ls| && |ls[i]| == 0
      ensures LineTotals(ls[i]) == NetTotals(0, 0)
    {
      EmptyLineTotals(ls[i]);
    }
    SumOverNonEmpty(ls, LineTotals);
  }

  /** Filtering keeps the order: it works line by line. */
  lemma {:induction false} NonEmptyAppend(a: seq<string>, b: seq<string>)
    ensures NonEmpty(a + b) == NonEmpty(a) + NonEmpty(b)
    decreases |b|
  {
    if b == [] {
      assert a + b == a;
    } else {
      var b' := b[..|b| - 1];
      assert (a + b)[..|a + b| - 1] == a + b';
      assert (a + b)[|a + b| - 1] == b[|b| - 1];
      NonEmptyAppend(a, b');
    }
  }

  /** When no line is empty, filtering keeps every line. */
  lemma {:induction false} NonEmptyKeepsAll(ls: seq<string>)
    requires forall i :: 0 <= i < |ls| ==> |ls[i]| > 0
    ensures NonEmpty(ls) == ls
  {
    if ls != [] {
      NonEmptyKeepsAll(ls[..|ls| - 1]);
      assert ls == ls[..|ls| - 1] + [ls[|ls| - 1]];
    }
  }

  /** Inserting an empty line anywhere changes nothing. */
  lemma EmptyLineIgnored(ls: seq<string>, k: nat, e: string)
    requires k <= |ls| && |e| == 0
    ensures SumTotals(ls[..k] + [e] + ls[k..]) == SumTotals(ls)
  {
    EmptyLineTotals(e);
    SumOverInsertZero(ls, k, e, LineTotals);
  }

  /** The two header lines are never visited, whatever they hold: the loop
      sees exactly the non-empty body lines. */
  lemma HeaderLinesIgnored(h1: string, h2: string, body: seq<string>)
    requires '\n' !in h1 && '\n' !in h2
    requires forall i :: 0 <= i < |body| ==> '\n' !in body[i]
    ensures CounterLines(JoinWith([h1, h2] + body, '\n')) == NonEmpty(body)
  {
    var ls := [h1, h2] + body;
    SplitAfterHeaders(h1, h2, body);
    assert ls[2..] == body;
  }

  lemma SplitAfterHeaders(h1: string, h2: string, body: seq<string>)
    requires '\n' !in h1 && '\n' !in h2
    requires forall i :: 0 <= i < |body| ==> '\n' !in body[i]
    ensures SplitOn(JoinWith([h1, h2] + body, '\n'), '\n') == [h1, h2] + body
  {
    var rest := [h2] + body;
    assert [h1, h2] + body == [h1] + rest;
    SplitSecond(h2, body);
    SplitHead(h1, rest);
  }

  lemma SplitSecond(h2: string, body: seq<string>)
    requires '\n' !in h2
    requires forall i :: 0 <= i < |body| ==> '\n' !in body[i]
    ensures SplitOn(JoinWith([h2] + body, '\n'), '\n') == [h2] + body
    ensures forall i :: 0 <= i < |[h2] + body| ==> '\n' !in ([h2] + body)[i]
  {
    if body != [] {
      SplitJoin(body, '\n');
    }
    SplitHead(h2, body);
  }

  /** Splitting a join whose first piece has no newline. */
  lemma SplitHead(h: string, rest: seq<string>)
    requires '\n' !in h
    requires rest == [] || SplitOn(JoinWith(rest, '\n'), '\n') == rest
    requires forall i :: 0 <= i < |rest| ==> '\n' !in rest[i]
    ensures SplitOn(JoinWith([h] + rest, '\n'), '\n') == [h] + rest
  {
    if rest == [] {
      assert [h] + rest == [h];
      IndexOfAbsent(h, '\n');
    } else {
      JoinCons(h, rest, '\n');
      SplitOnAt(h, '\n', JoinWith(rest, '\n'));
    }
  }

  /** A file of two header lines and non-empty lines, each ended by a
      newline: the loop visits exactly those lines. */
  lemma TerminatedLines(h1: string, h2: string, lines: seq<string>)
    requires '\n' !in h1 && '\n' !in h2
    requires forall i :: 0 <= i < |lines| ==> '\n' !in lines[i] && |lines[i]| > 0
    ensures CounterLines(JoinWith([h1, h2] + lines + [""], '\n')) == lines
  {
    var body := lines + [""];
    assert NonEmpty(body) == lines by {
      NonEmptyKeepsAll(lines);
      assert body[..|body| - 1] == lines;
    }
    assert CounterLines(JoinWith([h1, h2] + body, '\n')) == NonEmpty(body) by {
      forall i | 0 <= i < |body| ensures '\n' !in body[i] {
        if i < |lines| {
          assert body[i] == lines[i];
        }
      }
      HeaderLinesIgnored(h1, h2, body);
    }
    assert [h1, h2] + lines + [""] == [h1, h2] + body;
  }

  /** Lines whose interface is excluded add nothing, and removing them from
      the end leaves the sum as it is. */
  lemma ExcludedLinesIgnored(ls: seq<string>, dropped: seq<string>)
    requires forall i :: 0 <= i < |dropped| ==> IsExcluded(LineParts(dropped[i])[0])
    ensures SumTotals(ls + dropped) == SumTotals(ls)
  {
    SumOverZeros(ls, dropped, LineTotals);
  }

  // ---------------------------------------------------------------------
  // The table as the kernel writes it

  /** Whitespace within a line: anything `\s` matches except the line
      break. */
  predicate Blank(s: string) {
    forall k :: 0 <= k < |s| ==> IsSpace(s[k]) && s[k] != '\n'
  }

  /** One interface's row as the kernel prints it: the name right-aligned
      behind `pad`, a colon, the `lead` before the first counter (empty when
      that counter fills its column), then the counters, each later one
      after its own non-empty `gaps` run of alignment blanks. */
  datatype KernelRow = KernelRow(pad: string, iface: string, lead: string,
                                 gaps: seq<string>, counters: seq<nat>)

  /** A name without whitespace or colon, at least the nine counters up to
      the transmitted bytes, and blank runs between them. */
  predicate WellFormedRow(r: KernelRow) {
    r.iface != [] && NoSpace(r.iface) && ':' !in r.iface &&
    |r.counters| >= 9 && |r.gaps| == |r.counters| - 1 &&
    Blank(r.pad) && Blank(r.lead) &&
    forall i :: 0 <= i < |r.gaps| ==> r.gaps[i] != [] && Blank(r.gaps[i])
  }

  function Decimals(cs: seq<nat>): (ds: seq<string>)
    ensures |ds| == |cs|
    ensures forall i :: 0 <= i < |ds| ==> ds[i] == Decimal(cs[i])
  {
    if cs == [] then [] else [Decimal(cs[0])] + Decimals(cs[1..])
  }

  /** The row's line: padding, the name, a colon, the lead, then the
      counters in decimal with their alignment runs between them. */
  function KernelLine(r: KernelRow): string
    requires WellFormedRow(r)
  {
    r.pad + r.iface + ":" + r.lead + Interleave(Decimals(r.counters), r.gaps)
  }

  /** The words of a row: its name, then its counters in decimal. */
  function RowWords(r: KernelRow): seq<string> {
    [r.iface] + Decimals(r.counters)
  }

  /** The runs between the words once the colon has become a space. */
  function RowGaps(r: KernelRow): seq<string> {
    [[' '] + r.lead] + r.gaps
  }

  lemma RowWordsPlain(r: KernelRow)
    requires WellFormedRow(r)
    ensures forall i :: 0 <= i < |RowWords(r)| ==> RowWords(r)[i] != [] && NoSpace(RowWords(r)[i])
  {
    var words := RowWords(r);
    forall i | 0 <= i < |words|
      ensures words[i] != [] && NoSpace(words[i])
    {
      if i > 0 {
        DigitsNoSpace(Decimals(r.counters)[i - 1]);
      }
    }
  }

  lemma RowGapsBlank(r: KernelRow)
    requires WellFormedRow(r)
    ensures forall i :: 0 <= i < |RowGaps(r)| ==> RowGaps(r)[i] != [] && AllSpace(RowGaps(r)[i])
  {
    var gaps := RowGaps(r);
    var first := [' '] + r.lead;
    assert AllSpace(first) by {
      assert IsSpace(' ');
      forall k | 1 <= k < |first| ensures IsSpace(first[k]) {
        assert first[k] == r.lead[k - 1];
      }
    }
    forall i | 0 <= i < |gaps|
      ensures gaps[i] != [] && AllSpace(gaps[i])
    {
      if i > 0 {
        assert gaps[i] == r.gaps[i - 1];
      }
    }
  }

  /** Replacing the colon leaves the padding before the words and their
      runs. */
  lemma KernelLineUncolon(r: KernelRow)
    requires WellFormedRow(r)
    ensures ReplaceFirst(KernelLine(r), ':', ' ') == r.pad + Interleave(RowWords(r), RowGaps(r))
  {
    var ws, gs := RowWords(r), RowGaps(r);
    var joined := Interleave(Decimals(r.counters), r.gaps);
    assert ws[1..] == Decimals(r.counters) && gs[1..] == r.gaps;
    assert Interleave(ws, gs) == r.iface + ([' '] + r.lead) + joined;
    assert ':' !in r.pad by {
      assert !IsSpace(':');
    }
    ReplaceFirstAt(r.pad + r.iface, ':', ' ', r.lead + joined);
    assert KernelLine(r) == (r.pad + r.iface) + [':'] + (r.lead + joined);
  }

  /** The fields `LineParts` finds in a row's line are the row's words,
      however wide the padding and the columns. */
  lemma KernelLineParts(r: KernelRow)
    requires WellFormedRow(r)
    ensures LineParts(KernelLine(r)) == RowWords(r)
  {
    var ws, gs := RowWords(r), RowGaps(r);
    var x := Interleave(ws, gs);
    RowWordsPlain(r);
    RowGapsBlank(r);
    KernelLineUncolon(r);
    assert Trim(r.pad + x) == x by {
      InterleaveEnds(ws, gs);
      TrimUnpadded(r.pad, x);
    }
    SplitWsInterleave(ws, gs);
  }

  /** The line of an interface that is not excluded adds its received and
      transmitted byte counters; that of an excluded one adds nothing. */
  lemma KernelLineTotals(r: KernelRow)
    requires WellFormedRow(r)
    ensures LineTotals(KernelLine(r)) ==
              if IsExcluded(r.iface) then NetTotals(0, 0)
              else NetTotals(r.counters[0], r.counters[8])
  {
    var words := RowWords(r);
    assert LineTotals(KernelLine(r)) == PartsTotals(words) by {
      KernelLineParts(r);
    }
    assert Field(words, 1) == Some(Decimal(r.counters[0]));
    assert Field(words, 9) == Some(Decimal(r.counters[8]));
    DecimalParses(r.counters[0]);
    DecimalParses(r.counters[8]);
  }

  function RowLines(rows: seq<KernelRow>): (ls: seq<string>)
    requires forall i :: 0 <= i < |rows| ==> WellFormedRow(rows[i])
    ensures |ls| == |rows|
    ensures forall i :: 0 <= i < |ls| ==> ls[i] == KernelLine(rows[i])
  {
    if rows == [] then [] else RowLines(rows[..|rows| - 1]) + [KernelLine(rows[|rows| - 1])]
  }

  /** The reference answer: received and transmitted bytes summed over the
      rows of interfaces that are not excluded. */
  function ExpectedTotals(rows: seq<KernelRow>): NetTotals
    requires forall i :: 0 <= i < |rows| ==> WellFormedRow(rows[i])
  {
    if rows == [] then NetTotals(0, 0)
    else
      var r := rows[|rows| - 1];
      assert WellFormedRow(r);
      Plus(ExpectedTotals(rows[..|rows| - 1]),
           if IsExcluded(r.iface) then NetTotals(0, 0)
           else NetTotals(r.counters[0], r.counters[8]))
  }

  lemma {:induction false} RowLinesTotals(rows: seq<KernelRow>)
    requires forall i :: 0 <= i < |rows| ==> WellFormedRow(rows[i])
    ensures SumTotals(RowLines(rows)) == ExpectedTotals(rows)
  {
    if rows != [] {
      var init := rows[..|rows| - 1];
      var ls := RowLines(rows);
      assert ls[..|ls| - 1] == RowLines(init);
      RowLinesTotals(init);
      KernelLineTotals(rows[|rows| - 1]);
    }
  }

  /** The whole file: two header lines, one line per interface, each line
      ended by a newline. */
  function KernelTable(h1: string, h2: string, rows: seq<KernelRow>): string
    requires forall i :: 0 <= i < |rows| ==> WellFormedRow(rows[i])
  {
    JoinWith([h1, h2] + RowLines(rows) + [""], '\n')
  }

  /** A row's line holds no line break. */
  lemma KernelLineOneLine(r: KernelRow)
    requires WellFormedRow(r)
    ensures '\n' !in KernelLine(r) && |KernelLine(r)| > 0
  {
    var ds := Decimals(r.counters);
    assert IsSpace('\n');
    forall i | 0 <= i < |ds| ensures '\n' !in ds[i] {
      DigitsNoSpace(ds[i]);
    }
    forall i | 0 <= i < |r.gaps| ensures '\n' !in r.gaps[i] {
      assert Blank(r.gaps[i]);
    }
    InterleaveAvoids(ds, r.gaps, '\n');
    assert KernelLine(r) == r.pad + r.iface + ":" + r.lead + Interleave(ds, r.gaps);
  }

  /** The loop visits exactly the rows' lines, whatever the header lines
      say. */
  lemma KernelTableLines(h1: string, h2: string, rows: seq<KernelRow>)
    requires '\n' !in h1 && '\n' !in h2
    requires forall i :: 0 <= i < |rows| ==> WellFormedRow(rows[i])
    ensures CounterLines(KernelTable(h1, h2, rows)) == RowLines(rows)
  {
    var lines := RowLines(rows);
    forall i | 0 <= i < |lines| ensures '\n' !in lines[i] && |lines[i]| > 0 {
      KernelLineOneLine(rows[i]);
    }
    TerminatedLines(h1, h2, lines);
  }

  /** For any table in the kernel's layout, the totals are the received and
      transmitted bytes of the interfaces that are not excluded, whatever
      the header lines say. */
  lemma KernelTableTotals(h1: string, h2: string, rows: seq<KernelRow>)
    requires '\n' !in h1 && '\n' !in h2
    requires forall i :: 0 <= i < |rows| ==> WellFormedRow(rows[i])
    ensures Totals(KernelTable(h1, h2, rows)) == ExpectedTotals(rows)
  {
    KernelTableLines(h1, h2, rows);
    RowLinesTotals(rows);
  }
}
