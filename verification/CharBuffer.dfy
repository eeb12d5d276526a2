/**
 C strings inside a char buffer, edited in place as trim and strtok_r do: a string is given by the
 index of its first char and ends at the first NUL.
 */
module CharBuffer {
  import opened CText

  ghost predicate At(b: seq<char>, p: nat, s: string)
    requires p + |s| <= |b|
  {
    forall i :: 0 <= i < |s| ==> b[p + i] == s[i] != '\0'
  }

  ghost predicate Holds(b: seq<char>, p: nat, s: string) {
    p + |s| < |b| && At(b, p, s) && b[p + |s|] == '\0'
  }

  /** Nothing but n chars from p on was written. */
  ghost predicate Kept(b: seq<char>, b': seq<char>, p: nat, n: nat) {
    |b'| == |b| && forall i {:trigger b'[i]} :: 0 <= i < |b| && !(p <= i < p + n) ==> b'[i] == b[i]
  }

  lemma HoldsElsewhere(b: seq<char>, b': seq<char>, p: nat, n: nat, q: nat, t: string)
    requires Kept(b, b', p, n) && Holds(b, q, t) && (q + |t| < p || p + n <= q || n == 0)
    ensures Holds(b', q, t)
  {
  }

  lemma KeptWider(b: seq<char>, b': seq<char>, p: nat, n: nat, p': nat, n': nat)
    requires Kept(b, b', p, n) && p' <= p && p + n <= p' + n'
    ensures Kept(b, b', p', n')
  {
  }

  lemma KeptTwice(b: seq<char>, b': seq<char>, b'': seq<char>, p: nat, n: nat)
    requires Kept(b, b', p, n) && Kept(b', b'', p, n)
    ensures Kept(b, b'', p, n)
  {
  }

  lemma HoldsSuffix(b: seq<char>, p: nat, s: string, i: nat)
    requires Holds(b, p, s) && i <= |s|
    ensures Holds(b, p + i, s[i..])
  {
    var t := s[i..];
    assert forall k :: 0 <= k < |t| ==> t[k] == s[i + k];
  }

  lemma CharAt(b: seq<char>, p: nat, s: string, i: nat)
    requires Holds(b, p, s) && i <= |s|
    ensures b[p + i] == if i < |s| then s[i] else '\0'
    ensures b[p + i] == '\0' <==> i == |s|
  {
  }

  method StrLen(b: array<char>, p: nat, ghost s: string) returns (n: nat)
    requires Holds(b[..], p, s)
    ensures n == |s|
  {
    n := 0;
    CharAt(b[..], p, s, 0);
    while b[p + n] != '\0'
      invariant n <= |s| && (b[p + n] == '\0' <==> n == |s|)
      decreases |s| - n
    {
      n := n + 1;
      CharAt(b[..], p, s, n);
    }
  }

  method ReadString(b: array<char>, p: nat, ghost s: string) returns (t: string)
    requires Holds(b[..], p, s)
    ensures t == s
  {
    var n := StrLen(b, p, s);
    t := b[p..p + n];
  }

  /** Ends the string at j. */
  method Terminate(b: array<char>, p: nat, j: nat, ghost s: string)
    requires Holds(b[..], p, s) && j < |s|
    modifies b
    ensures Holds(b[..], p, s[..j]) && Holds(b[..], p + j + 1, s[j + 1..])
    ensures Kept(old(b[..]), b[..], p, |s|)
  {
    b[p + j] := '\0';
    ghost var t := s[j + 1..];
    assert forall i :: 0 <= i < |t| ==> t[i] == s[j + 1 + i];
  }

  /** strspn and strcspn: how far the string stays inside or outside the set. */
  method StrSpan(b: array<char>, p: nat, d: set<char>, inside: bool, ghost s: string) returns (n: nat)
    requires Holds(b[..], p, s) && '\0' !in d
    ensures n == Span(s, d, inside) && (b[p + n] == '\0' <==> n == |s|)
  {
    n := 0;
    CharAt(b[..], p, s, 0);
    while b[p + n] != '\0' && (b[p + n] in d) == inside
      invariant n <= |s| && (b[p + n] == '\0' <==> n == |s|)
      invariant n < |s| ==> b[p + n] == s[n]
      invariant forall i :: 0 <= i < n ==> (s[i] in d) == inside
      decreases |s| - n
    {
      n := n + 1;
      CharAt(b[..], p, s, n);
    }
    SpanIs(s, d, inside, n);
  }

  method Trim(b: array<char>, p: nat, ghost s: string) returns (q: nat)
    requires Holds(b[..], p, s)
    modifies b
    ensures p <= q && q + |Trimmed(s)| <= p + |s| && Holds(b[..], q, Trimmed(s))
    ensures Kept(old(b[..]), b[..], p, |s|)
  {
    var i := StrSpan(b, p, SPACES, true, s);
    q := p + i;
    ghost var t := s[i..];
    HoldsSuffix(b[..], p, s, i);
    if b[q] != '\0' {
      TrimEnd(b, q, t);
      KeptWider(old(b[..]), b[..], q, |t|, p, |s|);
    }
  }

  /** The second loop of trim. */
  method TrimEnd(b: array<char>, q: nat, ghost t: string)
    requires Holds(b[..], q, t) && t != [] && t[0] !in SPACES
    modifies b
    ensures Holds(b[..], q, DropSpace(t))
    ensures Kept(old(b[..]), b[..], q, |t|)
  {
    var n := StrLen(b, q, t);
    ghost var left := t;
    while n > 1 && b[q + n - 1] in SPACES
      invariant 1 <= n == |left| <= |t| && left[0] !in SPACES
      invariant Holds(b[..], q, left) && DropSpace(left) == DropSpace(t)
      invariant Kept(old(b[..]), b[..], q, |t|)
    {
      CharAt(b[..], q, left, n - 1);
      Shorten(b, q, n - 1, left);
      n, left := n - 1, left[..n - 1];
    }
    CharAt(b[..], q, left, n - 1);
  }

  method Shorten(b: array<char>, p: nat, j: nat, ghost s: string)
    requires Holds(b[..], p, s) && j < |s|
    modifies b
    ensures Holds(b[..], p, s[..j])
    ensures Kept(old(b[..]), b[..], p, |s|)
  {
    b[p + j] := '\0';
  }

  /** strtok_r found the first token of the string that started at `from`. */
  ghost predicate IsFound(b: seq<char>, from: nat, tok: nat, save: nat, s: string, d: set<char>) {
    && Span(s, d, true) < |s|
    && tok == from + Span(s, d, true) && Holds(b, tok, Token(s, d))
    && var more := After(s, TokenEnd(s, d)); save + |more| == from + |s| && Holds(b, save, more)
  }

  /** strtok_r on the string at `save`. */
  method StrTok(b: array<char>, save: nat, d: set<char>, ghost s: string) returns (found: bool, tok: nat, save': nat)
    requires Holds(b[..], save, s) && '\0' !in d
    modifies b
    ensures found <==> Span(s, d, true) < |s|
    ensures found ==> IsFound(b[..], save, tok, save', s, d)
    ensures Kept(old(b[..]), b[..], save, |s|)
  {
    var i := StrSpan(b, save, d, true, s);
    tok, save' := save + i, save + i;
    found := b[tok] != '\0';
    if found {
      HoldsSuffix(b[..], save, s, i);
      TokenOfSuffix(s, d);
      save' := CutToken(b, tok, d, s[i..]);
      KeptWider(old(b[..]), b[..], tok, |s| - i, save, |s|);
    }
  }

  /** Ends the token that starts here and returns where the next search starts. */
  method CutToken(b: array<char>, tok: nat, d: set<char>, ghost t: string) returns (save: nat)
    requires Holds(b[..], tok, t) && '\0' !in d
    modifies b
    ensures Holds(b[..], tok, t[..Span(t, d, false)])
    ensures var more := After(t, Span(t, d, false)); save + |more| == tok + |t| && Holds(b[..], save, more)
    ensures Kept(old(b[..]), b[..], tok, |t|)
  {
    var n := StrSpan(b, tok, d, false, t);
    save := tok + n;
    if b[save] == '\0' {
      assert t[..n] == t;
    } else {
      Terminate(b, tok, n, t);
      save := save + 1;
    }
  }

  lemma TokenOfSuffix(s: string, d: set<char>)
    requires Span(s, d, true) < |s|
    ensures var i := Span(s, d, true);
            var n := Span(s[i..], d, false);
            Token(s, d) == s[i..][..n] && After(s, TokenEnd(s, d)) == After(s[i..], n)
  {
  }
}
