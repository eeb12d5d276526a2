/**
 Loading a configuration text: it is taken as a whole or not at all, and the first line that is
 wrong decides how loading fails.
 */
module ConfigLoader {
  import opened Options
  import opened CText
  import opened EndpointText
  import opened RouteLine
  import opened CharBuffer
  import RouteParser

  const MAX_LINE_LEN := 512
  const LINE_NO_RANGE := 0x1_0000_0000     // line_no is an unsigned int

  datatype Code = Ok | E2big | Einval | Eaddrinuse

  // ---- Lines -------------------------------------------------------------------------------------

  /** The raw lines, without their newlines; the last one may lack its newline. */
  function Lines(data: string): (r: seq<string>) {
    if data == [] then []
    else
      match IndexOf(data, '\n')
      case None => [data]
      case Some(i) => [data[..i]] + Lines(data[i + 1..])
  }

  function Unlines(lines: seq<string>): string {
    if lines == [] then "" else lines[0] + "\n" + Unlines(lines[1..])
  }

  lemma UnlinesCons(first: string, rest: seq<string>)
    ensures Unlines([first] + rest) == first + "\n" + Unlines(rest)
  {
    assert ([first] + rest)[1..] == rest;
  }

  function Closed(data: string): string {
    if data == [] || data[|data| - 1] == '\n' then data else data + "\n"
  }

  /** The lines rebuild the text, up to a final newline, and none of them holds one. */
  lemma {:induction false} LinesRebuild(data: string)
    ensures Unlines(Lines(data)) == Closed(data)
    ensures forall k :: 0 <= k < |Lines(data)| ==> '\n' !in Lines(data)[k]
    decreases |data|
  {
    if data != [] {
      match IndexOf(data, '\n')
      case None =>
        assert Unlines([data][1..]) == "";
      case Some(i) =>
        LinesRebuild(data[i + 1..]);
        UnlinesCons(data[..i], Lines(data[i + 1..]));
        ClosedSplits(data, i);
    }
  }

  lemma ClosedSplits(data: string, i: nat)
    requires i < |data| && data[i] == '\n'
    ensures Closed(data) == data[..i] + "\n" + Closed(data[i + 1..])
  {
    Splice(data, i, data[i + 1..]);
  }

  lemma Splice(data: string, i: nat, rest: string)
    requires i < |data| && data[i] == '\n' && rest == data[i + 1..]
    ensures data == data[..i] + "\n" + rest && data + "\n" == data[..i] + "\n" + (rest + "\n")
    ensures rest != [] ==> rest[|rest| - 1] == data[|data| - 1]
  {
  }

  /** Every list of newline-free lines is the lines of some text. */
  lemma {:induction false} LinesOfUnlines(lines: seq<string>)
    requires forall k :: 0 <= k < |lines| ==> '\n' !in lines[k]
    ensures Lines(Unlines(lines)) == lines
    decreases |lines|
  {
    if lines != [] {
      var data, rest := Unlines(lines), Unlines(lines[1..]);
      var i := |lines[0]|;
      assert data == lines[0] + "\n" + rest;
      assert data[..i] == lines[0] && data[i + 1..] == rest;
      FirstIndex(data, '\n', i);
      LinesOfUnlines(lines[1..]);
    }
  }

  /** A line without the carriage return of a CRLF. */
  function StripCr(raw: string): (r: string) {
    if raw != [] && raw[|raw| - 1] == '\r' then raw[..|raw| - 1] else raw
  }

  /** The text of a line before its comment, trimmed. */
  function Uncomment(line: string): (r: string) {
    if line == [] || line[0] == '#' then []
    else
      match IndexOf(line, '#')
      case None => line
      case Some(hash) => Trimmed(line[..hash])
  }

  /** The text before the first '#'. */
  function BeforeHash(s: string): (r: string) {
    match IndexOf(s, '#') case None => s case Some(i) => s[..i]
  }

  /** Trimming, looking for a comment sign and trimming again is trimming what is before the sign. */
  lemma UncommentIs(s: string)
    ensures Uncomment(Trimmed(s)) == Trimmed(BeforeHash(s))
  {
    var t := Trimmed(s);
    var lead, trail := TrimParts(s);
    HashAfterSpace(lead, t + trail);
    TrimSkipsSpace(lead, BeforeHash(t + trail));
    TrimSkipsSpace(lead, t + trail);
    HashBeforeSpace(t, trail);
    UncommentCuts(t);
  }

  lemma TrimParts(s: string) returns (lead: string, trail: string)
    ensures Only(lead, SPACES) && Only(trail, SPACES) && s == lead + (Trimmed(s) + trail)
  {
    var i := Span(s, SPACES, true);
    trail := DropParts(s[i..]);
    lead := s[..i];
    assert s == s[..i] + s[i..];
  }

  lemma DropParts(r: string) returns (trail: string)
    ensures Only(trail, SPACES) && r == DropSpace(r) + trail
  {
    trail := r[|DropSpace(r)|..];
  }

  lemma HashAfterSpace(lead: string, u: string)
    requires Only(lead, SPACES)
    ensures BeforeHash(lead + u) == lead + BeforeHash(u)
  {
    var s := lead + u;
    match IndexOf(u, '#')
    case None => assert IndexOf(s, '#').None?;
    case Some(h) =>
      assert forall k :: 0 <= k < |lead| + h ==> s[k] == if k < |lead| then lead[k] else u[k - |lead|];
      assert s[|lead| + h] == '#';
      FirstIndex(s, '#', |lead| + h);
      assert s[..|lead| + h] == lead + u[..h];
  }

  lemma HashBeforeSpace(t: string, trail: string)
    requires Only(trail, SPACES)
    ensures BeforeHash(t + trail) == if IndexOf(t, '#').None? then t + trail else BeforeHash(t)
  {
    var s := t + trail;
    match IndexOf(t, '#')
    case None => assert IndexOf(s, '#').None?;
    case Some(h) =>
      assert s[h] == '#' && forall k :: 0 <= k < h ==> s[k] == t[k];
      FirstIndex(s, '#', h);
      assert s[..h] == t[..h];
  }

  lemma UncommentCuts(t: string)
    ensures Uncomment(t) == if IndexOf(t, '#').None? then t else Trimmed(BeforeHash(t))
  {
  }

  lemma TrimSkipsSpace(lead: string, t: string)
    requires Only(lead, SPACES)
    ensures Trimmed(lead + t) == Trimmed(t)
  {
    var n, s := Span(t, SPACES, true), lead + t;
    SpanIs(s, SPACES, true, |lead| + n);
    assert s[|lead| + n..] == t[n..];
  }

  // ---- What a text means -------------------------------------------------------------------------

  /** A line alone: nothing, something wrong, or a route. */
  datatype Meaning = Nothing | Wrong(code: Code) | Means(route: Route)

  function MeaningOf(raw: string): (m: Meaning)
    ensures m.Wrong? ==> m.code == E2big || m.code == Einval
  {
    if |StripCr(raw)| >= MAX_LINE_LEN then Wrong(E2big)
    else TextMeaning(Uncomment(Trimmed(CString(StripCr(raw)))))
  }

  function TextMeaning(text: string): (m: Meaning)
    ensures m.Wrong? ==> m.code == Einval
  {
    if text == [] then Nothing
    else
      match RouteOf(text)
      case None => Wrong(Einval)
      case Some(r) => Means(r)
  }

  /** The part of a line that counts: before the first '#', trimmed. */
  function TextOf(raw: string): (r: string) {
    Trimmed(BeforeHash(CString(StripCr(raw))))
  }

  /** What each meaning means: too long, blank or comment, no route, or a route. */
  lemma MeaningIff(raw: string)
    ensures MeaningOf(raw) == Wrong(E2big) <==> |StripCr(raw)| >= 512
    ensures MeaningOf(raw) == Nothing <==> |StripCr(raw)| < 512 && TextOf(raw) == []
    ensures MeaningOf(raw) == Wrong(Einval) <==> |StripCr(raw)| < 512 && TextOf(raw) != [] && RouteOf(TextOf(raw)).None?
    ensures MeaningOf(raw).Means? <==> |StripCr(raw)| < 512 && TextOf(raw) != [] && RouteOf(TextOf(raw)).Some?
    ensures MeaningOf(raw).Means? ==> RouteOf(TextOf(raw)) == Some(MeaningOf(raw).route)
  {
    UncommentIs(CString(StripCr(raw)));
  }

  /** A line may end in CRLF: the carriage return neither counts nor changes anything. */
  lemma CrlfIsLf(raw: string)
    requires raw == [] || raw[|raw| - 1] != '\r'
    ensures MeaningOf(raw + "\r") == MeaningOf(raw)
  {
    assert (raw + "\r")[..|raw|] == raw;
  }

  function Meanings(lines: seq<string>): (ms: seq<Meaning>) {
    seq(|lines|, i requires 0 <= i < |lines| => MeaningOf(lines[i]))
  }

  /** The number of the k-th line, counted from 1, in an unsigned int. */
  function LineNumber(k: nat): (r: nat)
    ensures k < LINE_NO_RANGE ==> r == k
  {
    k % LINE_NO_RANGE
  }

  function RouteAt(ms: seq<Meaning>, k: nat): Route
    requires k < |ms| && ms[k].Means?
  {
    ms[k].route.(lineNo := LineNumber(k + 1))
  }

  function RoutesOf(ms: seq<Meaning>): seq<Route> {
    if ms == [] then []
    else
      var k := |ms| - 1;
      RoutesOf(ms[..k]) + if ms[k].Means? then [RouteAt(ms, k)] else []
  }

  predicate Clashes(routes: seq<Route>, r: Route) {
    exists i :: 0 <= i < |routes| && SameListenEndpoint(routes[i].listen, r.listen)
  }

  ghost predicate ConflictFree(routes: seq<Route>) {
    forall i, j :: 0 <= i < j < |routes| ==> !SameListenEndpoint(routes[i].listen, routes[j].listen)
  }

  /** Every line is blank or a route, and no two routes listen on the same endpoint. */
  ghost predicate Loads(ms: seq<Meaning>) {
    (forall k :: 0 <= k < |ms| ==> !ms[k].Wrong?) && ConflictFree(RoutesOf(ms))
  }

  /** What is wrong with line k after the routes of the lines before it, if anything. */
  function Offence(ms: seq<Meaning>, k: nat): Code
    requires k < |ms|
  {
    match ms[k]
    case Nothing => Ok
    case Wrong(code) => code
    case Means(r) => if Clashes(RoutesOf(ms[..k]), r) then Eaddrinuse else Ok
  }

  ghost predicate FirstOffence(ms: seq<Meaning>, k: nat, code: Code) {
    k < |ms| && Loads(ms[..k]) && code != Ok && Offence(ms, k) == code
  }

  lemma RoutesGrow(ms: seq<Meaning>, k: nat)
    requires k < |ms|
    ensures RoutesOf(ms[..k + 1]) == RoutesOf(ms[..k]) + if ms[k].Means? then [RouteAt(ms, k)] else []
  {
    assert ms[..k + 1][..k] == ms[..k];
  }

  lemma LineLoadsIff(ms: seq<Meaning>, k: nat)
    requires k < |ms| && Loads(ms[..k]) && ms[k] != Wrong(Ok)
    ensures Loads(ms[..k + 1]) <==> Offence(ms, k) == Ok
  {
    RoutesGrow(ms, k);
    var before, after, upto := RoutesOf(ms[..k]), RoutesOf(ms[..k + 1]), ms[..k + 1];
    assert upto[k] == ms[k] && forall i :: 0 <= i < k ==> upto[i] == ms[..k][i];
    if ms[k].Means? && Clashes(before, ms[k].route) {
      var i :| 0 <= i < |before| && SameListenEndpoint(before[i].listen, ms[k].route.listen);
      assert SameListenEndpoint(after[i].listen, after[|before|].listen);
    }
  }

  lemma {:induction false} PrefixLoads(ms: seq<Meaning>, k: nat)
    requires Loads(ms) && k <= |ms|
    ensures Loads(ms[..k])
    decreases |ms|
  {
    if k == |ms| {
      assert ms[..k] == ms;
    } else {
      var most := ms[..|ms| - 1];
      assert ms[..|ms| - 1 + 1] == ms;
      RoutesGrow(ms, |ms| - 1);
      assert RoutesOf(most) <= RoutesOf(ms);
      PrefixLoads(most, k);
      assert most[..k] == ms[..k];
    }
  }

  /** Loading fails exactly at the first offending line, and that line decides the error. */
  lemma LoadsIffNoOffence(lines: seq<string>)
    ensures Loads(Meanings(lines)) <==> !exists k, code :: FirstOffence(Meanings(lines), k, code)
    ensures forall k, code, k', code' :: FirstOffence(Meanings(lines), k, code) && FirstOffence(Meanings(lines), k', code') ==>
              k == k' && code == code'
  {
    var ms := Meanings(lines);
    if !Loads(ms) {
      assert ms[..|ms|] == ms;
      var k := FindOffence(ms, |ms|);
      assert FirstOffence(ms, k, Offence(ms, k));
    }
    forall k, code | FirstOffence(ms, k, code) ensures !Loads(ms) {
      OffenceStops(ms, k, code, |ms|);
      assert ms[..|ms|] == ms;
    }
    forall k, code, k', code' | FirstOffence(ms, k, code) && FirstOffence(ms, k', code') ensures k == k' && code == code' {
      if k < k' {
        OffenceStops(ms, k, code, k');
      } else if k' < k {
        OffenceStops(ms, k', code', k);
      }
    }
  }

  /** What the error of the first offending line says about that line. */
  lemma OffenceMeans(lines: seq<string>, k: nat, code: Code)
    requires FirstOffence(Meanings(lines), k, code)
    ensures code == E2big <==> |StripCr(lines[k])| >= 512
    ensures code == Einval <==> |StripCr(lines[k])| < 512 && TextOf(lines[k]) != [] && RouteOf(TextOf(lines[k])).None?
    ensures code == Eaddrinuse <==>
            && |StripCr(lines[k])| < 512 && TextOf(lines[k]) != [] && RouteOf(TextOf(lines[k])).Some?
            && exists r :: r in RoutesOf(Meanings(lines)[..k]) &&
                           SameListenEndpoint(r.listen, RouteOf(TextOf(lines[k])).value.listen)
  {
    var ms := Meanings(lines);
    var before := RoutesOf(ms[..k]);
    assert ms[k] == MeaningOf(lines[k]);
    MeaningIff(lines[k]);
    if ms[k].Means? && Clashes(before, ms[k].route) {
      var i :| 0 <= i < |before| && SameListenEndpoint(before[i].listen, ms[k].route.listen);
      assert before[i] in before;
    }
  }

  lemma OffenceStops(ms: seq<Meaning>, k: nat, code: Code, n: nat)
    requires FirstOffence(ms, k, code) && k < n <= |ms|
    ensures !Loads(ms[..n])
  {
    LineLoadsIff(ms, k);
    assert ms[..n][..k + 1] == ms[..k + 1];
    if Loads(ms[..n]) {
      PrefixLoads(ms[..n], k + 1);
    }
  }

  lemma {:induction false} FindOffence(ms: seq<Meaning>, n: nat) returns (k: nat)
    requires n <= |ms| && !Loads(ms[..n]) && forall i :: 0 <= i < |ms| ==> ms[i] != Wrong(Ok)
    ensures k < n && Loads(ms[..k]) && Offence(ms, k) != Ok
    decreases n
  {
    if n == 0 {
      assert Loads(ms[..n]);
    } else if Loads(ms[..n - 1]) {
      k := n - 1;
      LineLoadsIff(ms, k);
    } else {
      k := FindOffence(ms, n - 1);
    }
  }

  /** The routes are those of the route lines, each with its line's number, in the order of the lines. */
  lemma {:induction false} RoutesAreTheLines(ms: seq<Meaning>, r: Route)
    ensures r in RoutesOf(ms) <==> exists k :: 0 <= k < |ms| && ms[k].Means? && r == RouteAt(ms, k)
    decreases |ms|
  {
    if ms != [] {
      var n := |ms| - 1;
      var most := ms[..n];
      RoutesAreTheLines(most, r);
      assert forall k :: 0 <= k < n ==> most[k] == ms[k];
      assert forall k :: 0 <= k < n && ms[k].Means? ==> RouteAt(most, k) == RouteAt(ms, k);
    }
  }

  lemma {:induction false} LineNumbersIncrease(ms: seq<Meaning>)
    requires |ms| < LINE_NO_RANGE
    ensures forall r :: r in RoutesOf(ms) ==> 1 <= r.lineNo <= |ms|
    ensures forall i, j :: 0 <= i < j < |RoutesOf(ms)| ==> RoutesOf(ms)[i].lineNo < RoutesOf(ms)[j].lineNo
    decreases |ms|
  {
    if ms != [] {
      var most := ms[..|ms| - 1];
      LineNumbersIncrease(most);
      var before, after := RoutesOf(most), RoutesOf(ms);
      assert forall i :: 0 <= i < |before| ==> after[i] == before[i] && before[i] in before;
    }
  }

  // ---- The loader --------------------------------------------------------------------------------

  /** find_conflicting_route: the index of the first conflict, or -1. */
  method FindConflictingRoute(routes: seq<Route>, r: Route) returns (i: int)
    ensures -1 <= i < |routes|
    ensures i >= 0 <==> Clashes(routes, r)
    ensures i >= 0 ==> SameListenEndpoint(routes[i].listen, r.listen) && !Clashes(routes[..i], r)
  {
    i := 0;
    while i < |routes|
      invariant 0 <= i <= |routes|
      invariant forall j :: 0 <= j < i ==> !SameListenEndpoint(routes[j].listen, r.listen)
    {
      if SameListenEndpoint(routes[i].listen, r.listen) {
        return;
      }
      i := i + 1;
    }
    i := -1;
  }

  /** A line copied into a buffer, trimmed, freed of its comment and parsed there. */
  method ReadLine(s: string) returns (m: Meaning)
    requires |s| < MAX_LINE_LEN
    ensures m == TextMeaning(Uncomment(Trimmed(CString(s))))
  {
    var buf := new char[MAX_LINE_LEN];
    for i := 0 to |s|
      invariant buf[..i] == s[..i]
    {
      buf[i] := s[i];
    }
    buf[|s|] := '\0';
    BufferHolds(buf[..], s);
    var p, blank := TrimLine(buf, CString(s));
    if blank {
      return Nothing;
    }
    var r := RouteParser.ParseRouteLine(buf, p, Uncomment(Trimmed(CString(s))));
    m := if r.None? then Wrong(Einval) else Means(r.value);
  }

  /** The line in the buffer, without its comment: where it starts, and whether anything is left. */
  method TrimLine(buf: array<char>, ghost s: string) returns (p: nat, blank: bool)
    requires Holds(buf[..], 0, s)
    modifies buf
    ensures blank <==> Uncomment(Trimmed(s)) == []
    ensures !blank ==> Holds(buf[..], p, Uncomment(Trimmed(s)))
  {
    p := Trim(buf, 0, s);
    var line := ReadString(buf, p, Trimmed(s));
    blank := line == [] || line[0] == '#';
    if !blank {
      var hash := IndexOf(line, '#');
      if hash.Some? {
        Terminate(buf, p, hash.value, line);
        p := Trim(buf, p, line[..hash.value]);
        CharAt(buf[..], p, Trimmed(line[..hash.value]), 0);
        blank := buf[p] == '\0';
      }
    }
  }

  lemma BufferHolds(b: seq<char>, s: string)
    requires |s| < |b| && b[..|s|] == s && b[|s|] == '\0'
    ensures Holds(b, 0, CString(s))
  {
    assert forall i :: 0 <= i < |s| ==> b[i] == b[..|s|][i];
    var c := CString(s);
    assert forall i :: 0 <= i < |c| ==> c[i] == s[i];
  }

  /** The first k lines gave these routes. */
  ghost predicate Taken(ms: seq<Meaning>, k: nat, routes: seq<Route>) {
    k <= |ms| && Loads(ms[..k]) && routes == RoutesOf(ms[..k])
  }

  lemma TakenAdvances(ms: seq<Meaning>, k: nat, routes: seq<Route>)
    requires k < |ms| && ms[k] != Wrong(Ok) && Taken(ms, k, routes)
    ensures match ms[k]
            case Nothing => Taken(ms, k + 1, routes)
            case Wrong(code) => FirstOffence(ms, k, code)
            case Means(r) =>
              if Clashes(routes, r) then FirstOffence(ms, k, Eaddrinuse)
              else Taken(ms, k + 1, routes + [r.(lineNo := LineNumber(k + 1))])
  {
    LineLoadsIff(ms, k);
    RoutesGrow(ms, k);
  }

  /** The same, to be looked up by whoever reads a line. */
  ghost predicate AreMeanings(lines: seq<string>, ms: seq<Meaning>) {
    |ms| == |lines| && forall i {:trigger MeaningOf(lines[i])} :: 0 <= i < |ms| ==> ms[i] == MeaningOf(lines[i])
  }

  /** The body of the loop: what one line adds, or how it ends the loading. */
  method TakeLine(raw: string, lineNo: nat, routes: seq<Route>, ghost lines: seq<string>, ghost ms: seq<Meaning>, ghost k: nat)
    returns (rc: Code, routes': seq<Route>)
    requires AreMeanings(lines, ms) && k < |lines| && lines[k] == raw && Taken(ms, k, routes) && lineNo == LineNumber(k + 1)
    ensures rc == Ok ==> Taken(ms, k + 1, routes')
    ensures rc != Ok ==> FirstOffence(ms, k, rc) && routes' == []
  {
    assert ms[k] == MeaningOf(lines[k]);
    TakenAdvances(ms, k, routes);
    var line := StripCr(raw);
    if |line| >= MAX_LINE_LEN {
      return E2big, [];
    }
    var m := ReadLine(line);
    match m {
      case Nothing =>
        return Ok, routes;
      case Wrong(code) =>
        return code, [];
      case Means(r) =>
        var conflict := FindConflictingRoute(routes, r.(lineNo := lineNo));
        if conflict >= 0 {
          return Eaddrinuse, [];
        }
        return Ok, routes + [r.(lineNo := lineNo)];
    }
  }

  function Increment(lineNo: nat, ghost k: nat): (r: nat)
    requires lineNo == LineNumber(k)
    ensures r == LineNumber(k + 1)
  {
    (lineNo + 1) % LINE_NO_RANGE
  }

  /** The line that starts at pos, and where the next one starts. */
  function NextLine(data: string, pos: nat): (r: (string, nat))
    requires pos < |data|
    ensures pos < r.1 <= |data|
  {
    match IndexOf(data[pos..], '\n')
    case None => (data[pos..], |data|)
    case Some(i) => (data[pos..pos + i], pos + i + 1)
  }

  /** The lines from an index of the text on. */
  ghost function LinesFrom(data: string, pos: nat): seq<string>
    requires pos <= |data|
    decreases |data| - pos
  {
    if pos == |data| then [] else [NextLine(data, pos).0] + LinesFrom(data, NextLine(data, pos).1)
  }

  lemma {:induction false} LinesFromIs(data: string, pos: nat)
    requires pos <= |data|
    ensures LinesFrom(data, pos) == Lines(data[pos..])
    decreases |data| - pos
  {
    if pos < |data| {
      LinesFromIs(data, NextLine(data, pos).1);
      var rest := data[pos..];
      match IndexOf(rest, '\n')
      case None =>
      case Some(i) => assert rest[i + 1..] == data[pos + i + 1..] && rest[..i] == data[pos..pos + i];
    }
  }

  /** The lines taken so far and those still in the text. */
  ghost function Together(taken: seq<string>, data: string, pos: nat): seq<string>
    requires pos <= |data|
  {
    taken + LinesFrom(data, pos)
  }

  lemma LineTaken(taken: seq<string>, data: string, pos: nat)
    requires pos < |data|
    ensures var (raw, next) := NextLine(data, pos);
            && Together(taken + [raw], data, next) == Together(taken, data, pos)
            && |taken| < |Together(taken, data, pos)| && Together(taken, data, pos)[|taken|] == raw
  {
    LineMoves(taken, NextLine(data, pos).0, LinesFrom(data, NextLine(data, pos).1));
  }

  lemma LineMoves(taken: seq<string>, raw: string, more: seq<string>)
    ensures (taken + [raw]) + more == taken + ([raw] + more) && (taken + ([raw] + more))[|taken|] == raw
  {
  }

  lemma TogetherStarts(data: string)
    ensures Together([], data, 0) == Lines(data)
  {
    LinesFromIs(data, 0);
    assert data[0..] == data;
  }

  /** The loop of load_routes_from_text. */
  method LoadLines(data: string, ghost lines: seq<string>, ghost ms: seq<Meaning>) returns (rc: Code, routes: seq<Route>)
    requires Together([], data, 0) == lines && AreMeanings(lines, ms)
    ensures rc == Ok ==> Taken(ms, |ms|, routes)
    ensures rc != Ok ==> routes == [] && exists k :: FirstOffence(ms, k, rc)
  {
    ghost var taken: seq<string> := [];
    var pos, lineNo := 0, 0;
    rc, routes := Ok, [];
    while pos < |data|
      invariant 0 <= pos <= |data| && lineNo == LineNumber(|taken|) && rc == Ok
      invariant Together(taken, data, pos) == lines
      invariant Taken(ms, |taken|, routes)
    {
      LineTaken(taken, data, pos);
      lineNo := Increment(lineNo, |taken|);
      var raw, next := NextLine(data, pos).0, NextLine(data, pos).1;
      rc, routes := TakeLine(raw, lineNo, routes, lines, ms, |taken|);
      if rc != Ok {
        return;
      }
      pos, taken := next, taken + [raw];
    }
  }

  /** load_routes_from_text: all the routes of the text, or an error and none. */
  method LoadRoutesFromText(data: string) returns (rc: Code, routes: seq<Route>)
    ensures rc == Ok <==> Loads(Meanings(Lines(data)))
    ensures rc == Ok ==> routes == RoutesOf(Meanings(Lines(data)))
    ensures rc != Ok ==> routes == [] && exists k :: FirstOffence(Meanings(Lines(data)), k, rc)
  {
    ghost var ms := Meanings(Lines(data));
    TogetherStarts(data);
    rc, routes := LoadLines(data, Lines(data), ms);
    if rc == Ok {
      assert ms[..|ms|] == ms;
    } else {
      OffenceRefuses(ms, rc);
    }
  }

  lemma OffenceRefuses(ms: seq<Meaning>, code: Code)
    requires exists k :: FirstOffence(ms, k, code)
    ensures !Loads(ms)
  {
    var k :| FirstOffence(ms, k, code);
    OffenceStops(ms, k, code, |ms|);
    assert ms[..|ms|] == ms;
  }
}
