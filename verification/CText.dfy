/**
 The string functions of the C library that the configuration parser is built on, for strings
 without NUL in which a char stands for one byte, in the C locale, with 64-bit long.
 */
module CText {
  import opened Options

  const SPACES := set c: char | c == ' ' || '\t' <= c <= '\r'
  const DIGITS := set c: char | '0' <= c <= '9'

  const ULONG_MAX := 0xFFFF_FFFF_FFFF_FFFF
  const LONG_MAX := 0x7FFF_FFFF_FFFF_FFFF
  const INT_MAX := 0x7FFF_FFFF

  // ---- Searching ---------------------------------------------------------------------------------

  function IndexOf(s: string, c: char): (r: Option<nat>)
    ensures r.Some? ==> r.value < |s| && s[r.value] == c && forall i :: 0 <= i < r.value ==> s[i] != c
    ensures r.None? ==> forall i :: 0 <= i < |s| ==> s[i] != c
  {
    if s == [] then None
    else if s[0] == c then Some(0)
    else
      var r := IndexOf(s[1..], c);
      if r.None? then None else Some(r.value + 1)
  }

  function LastIndexOf(s: string, c: char): (r: Option<nat>)
    ensures r.Some? ==> r.value < |s| && s[r.value] == c && forall i :: r.value < i < |s| ==> s[i] != c
    ensures r.None? ==> forall i :: 0 <= i < |s| ==> s[i] != c
  {
    if s == [] then None
    else
      var n := |s| - 1;
      if s[n] == c then Some(n) else LastIndexOf(s[..n], c)
  }

  /** The characters before the first NUL. */
  function CString(s: string): (r: string)
    ensures |r| <= |s| && forall i :: 0 <= i < |r| ==> r[i] == s[i] != '\0'
    ensures |r| < |s| ==> s[|r|] == '\0'
  {
    match IndexOf(s, '\0') case None => s case Some(i) => s[..i]
  }

  ghost predicate Only(s: string, d: set<char>) {
    forall i :: 0 <= i < |s| ==> s[i] in d
  }

  ghost predicate Free(s: string, d: set<char>) {
    forall i :: 0 <= i < |s| ==> s[i] !in d
  }

  /** strspn (inside) and strcspn (outside): the length of the longest such prefix. */
  function Span(s: string, d: set<char>, inside: bool): (n: nat)
    ensures n <= |s|
    ensures forall i :: 0 <= i < n ==> (s[i] in d) == inside
    ensures n < |s| ==> (s[n] in d) != inside
  {
    if s == [] || (s[0] in d) != inside then 0 else 1 + Span(s[1..], d, inside)
  }

  lemma {:induction false} SpanIs(s: string, d: set<char>, inside: bool, n: nat)
    requires n <= |s|
    requires forall i :: 0 <= i < n ==> (s[i] in d) == inside
    requires n < |s| ==> (s[n] in d) != inside
    ensures Span(s, d, inside) == n
  {
    if n > 0 {
      assert s[0] in d <==> inside;
      SpanIs(s[1..], d, inside, n - 1);
    }
  }

  // ---- Trimming ----------------------------------------------------------------------------------

  function DropSpace(s: string): (r: string)
    ensures |r| <= |s| && forall i :: 0 <= i < |r| ==> r[i] == s[i]
    ensures forall i :: |r| <= i < |s| ==> s[i] in SPACES
    ensures r != [] ==> r[|r| - 1] !in SPACES
  {
    if s == [] || s[|s| - 1] !in SPACES then s else DropSpace(s[..|s| - 1])
  }

  function Trimmed(s: string): (r: string)
    ensures |r| <= |s|
  {
    DropSpace(s[Span(s, SPACES, true)..])
  }

  /** The piece s[i..j] is r, and around it there is only white space. */
  ghost predicate IsTrimAt(s: string, r: string, i: nat, j: nat) {
    i <= j <= |s| && s[i..j] == r && Only(s[..i], SPACES) && Only(s[j..], SPACES)
  }

  /** What is left when white space is taken off both ends. */
  ghost predicate IsTrim(s: string, r: string) {
    && (exists i, j :: IsTrimAt(s, r, i, j))
    && (r != [] ==> r[0] !in SPACES && r[|r| - 1] !in SPACES)
  }

  lemma TrimmedIff(s: string, r: string)
    ensures r == Trimmed(s) <==> IsTrim(s, r)
  {
    var i := Span(s, SPACES, true);
    var t := Trimmed(s);
    var j := i + |t|;
    assert s[i..j] == t && Only(s[..i], SPACES) && s[j..] == s[i..][|t|..];
    assert IsTrimAt(s, t, i, j);
    assert t != [] ==> t[0] == s[i];
    if IsTrim(s, r) {
      TrimIsUnique(s, r, t);
    }
  }

  lemma TrimIsUnique(s: string, r: string, t: string)
    requires IsTrim(s, r) && IsTrim(s, t)
    ensures r == t
  {
    var i, j :| IsTrimAt(s, r, i, j);
    var k, l :| IsTrimAt(s, t, k, l);
    SameTrim(s, r, t, i, j, k, l);
  }

  lemma SameTrim(s: string, r: string, t: string, i: nat, j: nat, k: nat, l: nat)
    requires IsTrimAt(s, r, i, j) && IsTrimAt(s, t, k, l)
    requires r != [] ==> r[0] !in SPACES && r[|r| - 1] !in SPACES
    requires t != [] ==> t[0] !in SPACES && t[|t| - 1] !in SPACES
    ensures r == t
  {
    assert |r| == j - i && |t| == l - k;
    EndsAgree(s, r, i, j, k, l);
    EndsAgree(s, t, k, l, i, j);
  }

  /** A piece that starts and ends with a visible character lies inside any trim. */
  lemma EndsAgree(s: string, r: string, i: nat, j: nat, k: nat, l: nat)
    requires i <= j <= |s| && k <= l <= |s| && r == s[i..j]
    requires Only(s[..k], SPACES) && Only(s[l..], SPACES)
    requires r != [] ==> r[0] !in SPACES && r[|r| - 1] !in SPACES
    ensures r != [] ==> k <= i && j <= l
  {
    if r != [] {
      assert r[0] == s[i] && r[|r| - 1] == s[j - 1];
      assert forall x :: 0 <= x < k ==> s[x] == s[..k][x];
      assert forall x :: l <= x < |s| ==> s[x] == s[l..][x - l];
    }
  }

  // ---- Tokens ------------------------------------------------------------------------------------

  /** Where the first token of s ends, if there is one. */
  function TokenEnd(s: string, d: set<char>): (j: nat)
    requires Span(s, d, true) < |s|
    ensures Span(s, d, true) < j <= |s|
    ensures forall k :: Span(s, d, true) <= k < j ==> s[k] !in d
    ensures j < |s| ==> s[j] in d
  {
    var i := Span(s, d, true);
    var n := Span(s[i..], d, false);
    assert forall k :: i <= k < i + n ==> s[k] == s[i..][k - i];
    assert i + n < |s| ==> s[i + n] == s[i..][n];
    i + n
  }

  lemma TokenEndIs(s: string, d: set<char>, j: nat)
    requires Span(s, d, true) < j <= |s|
    requires forall k :: Span(s, d, true) <= k < j ==> s[k] !in d
    requires j < |s| ==> s[j] in d
    ensures TokenEnd(s, d) == j
  {
    var i := Span(s, d, true);
    SpanIs(s[i..], d, false, j - i);
  }

  function Token(s: string, d: set<char>): (r: string)
    requires Span(s, d, true) < |s|
  {
    s[Span(s, d, true)..TokenEnd(s, d)]
  }

  /** What strtok_r leaves for the next call after a token that ends at j. */
  function After(s: string, j: nat): (r: string)
    requires j <= |s|
  {
    if j < |s| then s[j + 1..] else []
  }

  /** The results of calling strtok_r until it returns NULL. */
  function Tokens(s: string, d: set<char>): (r: seq<string>)
    decreases |s|
  {
    var i := Span(s, d, true);
    if i == |s| then []
    else
      [Token(s, d)] + Tokens(After(s, TokenEnd(s, d)), d)
  }

  lemma TokensUnfold(s: string, d: set<char>)
    requires Span(s, d, true) < |s|
    ensures Tokens(s, d) == [Token(s, d)] + Tokens(After(s, TokenEnd(s, d)), d)
    ensures |After(s, TokenEnd(s, d))| < |s|
  {
  }

  datatype Word = Word(gap: string, text: string)

  function Spell(ws: seq<Word>, tail: string): string {
    if ws == [] then tail else ws[0].gap + ws[0].text + Spell(ws[1..], tail)
  }

  function Texts(ws: seq<Word>): seq<string> {
    if ws == [] then [] else [ws[0].text] + Texts(ws[1..])
  }

  /** Non-empty words free of delimiters, with nothing but delimiters around and between them. */
  ghost predicate Spaced(ws: seq<Word>, tail: string, d: set<char>) {
    && Only(tail, d)
    && (forall i :: 0 <= i < |ws| ==> Only(ws[i].gap, d) && ws[i].text != [] && Free(ws[i].text, d))
    && (forall i :: 0 < i < |ws| ==> ws[i].gap != [])
  }

  lemma {:induction false} TokensOfSpelling(ws: seq<Word>, tail: string, d: set<char>)
    requires Spaced(ws, tail, d)
    ensures Tokens(Spell(ws, tail), d) == Texts(ws)
    decreases |ws|
  {
    var s := Spell(ws, tail);
    if ws == [] {
      SpanIs(s, d, true, |s|);
    } else {
      var rest := ws[1..];
      var more := Spell(rest, tail);
      assert more != [] ==> more[0] in d;
      FirstToken(ws[0].gap, ws[0].text, more, d);
      TokensOfSpelling(rest, tail, d);
    }
  }

  lemma FirstToken(gap: string, text: string, more: string, d: set<char>)
    requires Only(gap, d) && Free(text, d) && text != [] && (more != [] ==> more[0] in d)
    ensures Tokens(gap + text + more, d) == [text] + Tokens(more, d)
  {
    var s, i, j := gap + text + more, |gap|, |gap| + |text|;
    SpanIs(s, d, true, i);
    TokenEndIs(s, d, j);
    assert s[i..j] == text && s[j..] == more;
    assert After(s, j) == After(more, 0);
    SkipDelimiter(more, d);
  }

  lemma {:induction false} SkipDelimiter(s: string, d: set<char>)
    requires s != [] ==> s[0] in d
    ensures Tokens(After(s, 0), d) == Tokens(s, d)
  {
    if s != [] {
      var t := s[1..];
      assert Span(s, d, true) == Span(t, d, true) + 1;
      if Span(t, d, true) < |t| {
        SameFirstToken(s, t, d);
        TokensUnfold(s, d);
        TokensUnfold(t, d);
      }
    }
  }

  /** Stated without slices of slices. */
  ghost predicate IsTail(s: string, t: string) {
    |s| == |t| + 1 && forall k {:trigger t[k]} :: 0 <= k < |t| ==> t[k] == s[k + 1]
  }

  lemma SameFirstToken(s: string, t: string, d: set<char>)
    requires IsTail(s, t) && Span(t, d, true) < |t| && Span(s, d, true) == Span(t, d, true) + 1
    ensures Token(s, d) == Token(t, d) && After(s, TokenEnd(s, d)) == After(t, TokenEnd(t, d))
  {
    var i, j := Span(t, d, true), TokenEnd(t, d);
    forall k | i + 1 <= k < j + 1 ensures s[k] !in d {
      assert t[k - 1] !in d;
    }
    assert j < |t| ==> t[j] in d;
    TokenEndIs(s, d, j + 1);
    SamePieces(s, t, i, j);
  }

  lemma SamePieces(s: string, t: string, i: nat, j: nat)
    requires IsTail(s, t) && i <= j <= |t|
    ensures s[i + 1..j + 1] == t[i..j] && After(s, j + 1) == After(t, j)
  {
  }

  /** Every string is spelled by its own tokens. */
  lemma TokensSpell(s: string, d: set<char>) returns (ws: seq<Word>, tail: string)
    ensures Spaced(ws, tail, d) && Spell(ws, tail) == s && Texts(ws) == Tokens(s, d)
  {
    ws, tail := Spelling(s, d);
    TokensOfSpelling(ws, tail, d);
  }

  lemma {:induction false} Spelling(s: string, d: set<char>) returns (ws: seq<Word>, tail: string)
    ensures Spaced(ws, tail, d) && Spell(ws, tail) == s
  {
    if s == [] {
      ws, tail := [], [];
    } else {
      assert s == [s[0]] + s[1..];
      ws, tail := Spelling(s[1..], d);
      if s[0] in d {
        ws, tail := PutDelimiter(ws, tail, s[0], d);
      } else {
        ws := PutLetter(ws, tail, s[0], d);
      }
    }
  }

  lemma PutLetter(ws: seq<Word>, tail: string, c: char, d: set<char>) returns (ws': seq<Word>)
    requires Spaced(ws, tail, d) && c !in d
    ensures Spaced(ws', tail, d) && Spell(ws', tail) == [c] + Spell(ws, tail)
  {
    if ws == [] || ws[0].gap != [] {
      PutWord(Word([], [c]), ws, tail, d);
      ws' := [Word([], [c])] + ws;
    } else {
      var text, more := ws[0].text, Spell(ws[1..], tail);
      ws' := [Word([], [c] + text)] + ws[1..];
      assert ws'[1..] == ws[1..];
      assert [] + ([c] + text) + more == [c] + (ws[0].gap + text + more);
    }
  }

  lemma PutDelimiter(ws: seq<Word>, tail: string, c: char, d: set<char>) returns (ws': seq<Word>, tail': string)
    requires Spaced(ws, tail, d) && c in d
    ensures Spaced(ws', tail', d)
    ensures Spell(ws', tail') == [c] + Spell(ws, tail)
  {
    if ws == [] {
      ws', tail' := ws, [c] + tail;
    } else {
      var gap, text, more := ws[0].gap, ws[0].text, Spell(ws[1..], tail);
      ws', tail' := [Word([c] + gap, text)] + ws[1..], tail;
      assert ws'[1..] == ws[1..];
      assert ([c] + gap) + text + more == [c] + (gap + text + more);
    }
  }

  lemma PutWord(w: Word, ws: seq<Word>, tail: string, d: set<char>)
    requires Spaced(ws, tail, d) && (ws != [] ==> ws[0].gap != [])
    requires Only(w.gap, d) && w.text != [] && Free(w.text, d)
    ensures Spaced([w] + ws, tail, d)
    ensures Spell([w] + ws, tail) == w.gap + w.text + Spell(ws, tail)
  {
    assert ([w] + ws)[1..] == ws;
  }

  // ---- Numbers -----------------------------------------------------------------------------------

  function DigitsValue(s: string): (n: nat)
    requires Only(s, DIGITS)
  {
    if s == [] then 0
    else DigitsValue(s[..|s| - 1]) * 10 + (s[|s| - 1] as int - '0' as int)
  }

  function Decimal(n: nat): (s: string)
    ensures s != [] && Only(s, DIGITS)
  {
    var last := [(n % 10 + '0' as int) as char];
    if n < 10 then last else Decimal(n / 10) + last
  }

  lemma {:induction false} DecimalValue(n: nat)
    ensures DigitsValue(Decimal(n)) == n
  {
    if n >= 10 {
      DecimalValue(n / 10);
      var s := Decimal(n);
      assert s[..|s| - 1] == Decimal(n / 10);
    }
  }

  /** Cutting digits off the end of a numeral makes it smaller. */
  lemma {:induction false} CutIsSmaller(s: string, k: nat)
    requires Only(s, DIGITS) && k < |s| && DigitsValue(s) > 0
    ensures Only(s[..k], DIGITS) && DigitsValue(s[..k]) < DigitsValue(s)
    decreases |s|
  {
    var t := s[..|s| - 1];
    assert s[|s| - 1] in DIGITS;
    if k < |t| && DigitsValue(t) > 0 {
      CutIsSmaller(t, k);
      assert t[..k] == s[..k];
    } else if k < |t| {
      CutOfZero(t, k);
      assert t[..k] == s[..k];
    } else {
      assert t == s[..k];
    }
  }

  lemma {:induction false} CutOfZero(s: string, k: nat)
    requires Only(s, DIGITS) && k <= |s| && DigitsValue(s) == 0
    ensures Only(s[..k], DIGITS) && DigitsValue(s[..k]) == 0
    decreases |s|
  {
    if k < |s| {
      var t := s[..|s| - 1];
      assert s[|s| - 1] in DIGITS;
      CutOfZero(t, k);
      assert t[..k] == s[..k];
    } else {
      assert s[..k] == s;
    }
  }

  datatype Scanned = Scanned(negative: bool, magnitude: nat, end: nat)

  /** What strtol and strtoul read: white space, a sign, digits; end is 0 if there are none. */
  function ScanNumber(s: string): (r: Scanned)
    ensures r.end <= |s|
  {
    var i := Span(s, SPACES, true);
    var j := if i < |s| && (s[i] == '-' || s[i] == '+') then i + 1 else i;
    var n := Span(s[j..], DIGITS, true);
    if n == 0 then Scanned(false, 0, 0)
    else Scanned(s[i] == '-', DigitsValue(s[j..][..n]), j + n)
  }

  datatype Number = Number(value: int, end: nat, erange: bool)

  function Strtoul(s: string): (r: Number) {
    var n := ScanNumber(s);
    if n.magnitude > ULONG_MAX then Number(ULONG_MAX, n.end, true)
    else if n.negative && n.magnitude > 0 then Number(ULONG_MAX + 1 - n.magnitude, n.end, false)
    else Number(n.magnitude, n.end, false)
  }

  function Strtol(s: string): (r: Number) {
    var n := ScanNumber(s);
    if n.negative then
      if n.magnitude > LONG_MAX + 1 then Number(-LONG_MAX - 1, n.end, true) else Number(0 - n.magnitude as int, n.end, false)
    else
      if n.magnitude > LONG_MAX then Number(LONG_MAX, n.end, true) else Number(n.magnitude, n.end, false)
  }

  /** The whole string is a number of this sign and magnitude. */
  ghost predicate Numeral(s: string, negative: bool, magnitude: nat) {
    exists i, j :: 0 <= i <= j < |s| && Only(s[..i], SPACES) && Only(s[j..], DIGITS) &&
                   s[i..j] in (if negative then {"-"} else {"", "+"}) && DigitsValue(s[j..]) == magnitude
  }

  lemma NumeralIff(s: string, negative: bool, magnitude: nat)
    ensures Numeral(s, negative, magnitude) <==> s != [] && ScanNumber(s) == Scanned(negative, magnitude, |s|)
  {
    if Numeral(s, negative, magnitude) {
      var i, j :| 0 <= i <= j < |s| && Only(s[..i], SPACES) && Only(s[j..], DIGITS) &&
                  s[i..j] in (if negative then {"-"} else {"", "+"}) && DigitsValue(s[j..]) == magnitude;
      NumeralIsScanned(s, negative, i, j);
    }
    if s != [] && ScanNumber(s) == Scanned(negative, magnitude, |s|) {
      ScannedIsNumeral(s);
    }
  }

  lemma NumeralIsScanned(s: string, negative: bool, i: nat, j: nat)
    requires i <= j < |s| && Only(s[..i], SPACES) && Only(s[j..], DIGITS)
    requires s[i..j] in (if negative then {"-"} else {"", "+"})
    ensures ScanNumber(s) == Scanned(negative, DigitsValue(s[j..]), |s|)
  {
    assert s[j] in DIGITS by {
      assert s[j..][0] == s[j];
    }
    assert forall k :: 0 <= k < i ==> s[k] == s[..i][k];
    if i < j {
      assert s[i..j][0] == s[i];
    }
    SpanIs(s, SPACES, true, i);
    assert forall k :: 0 <= k < |s| - j ==> s[j..][k] in DIGITS;
    SpanIs(s[j..], DIGITS, true, |s| - j);
    assert s[j..][..|s| - j] == s[j..];
  }

  lemma ScannedIsNumeral(s: string)
    requires s != [] && ScanNumber(s).end == |s|
    ensures Numeral(s, ScanNumber(s).negative, ScanNumber(s).magnitude)
  {
    var i := Span(s, SPACES, true);
    var j := if i < |s| && (s[i] == '-' || s[i] == '+') then i + 1 else i;
    var n := Span(s[j..], DIGITS, true);
    assert n == |s| - j > 0;
    assert s[j..][..n] == s[j..];
    assert s[j] == s[j..][0];
    assert s[i..j] == if i == j then "" else [s[i]];
    assert s[i..j] in (if s[i] == '-' then {"-"} else {"", "+"});
    assert Only(s[..i], SPACES) && Only(s[j..], DIGITS);
  }
}
