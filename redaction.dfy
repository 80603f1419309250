/** The password redaction of `Logger.sanitize`: a global replace, on the
    serialised record, of the regular expression
        \\"password\\":\s*\\"[^"]*\\"
    by the text  \"password\": \"*****\"  .
    The expression matches an escaped JSON member: backslash-quote, `password`,
    backslash-quote, colon, any run of whitespace, backslash-quote, a value
    holding no double quote, backslash-quote. */
module Redaction {
  import opened Wrappers

  /** The characters `\s` matches in a JavaScript regular expression:
      WhiteSpace and LineTerminator of ECMA-262. */
  predicate IsSpace(c: char) {
    var n := c as int;
    n == 0x09 || n == 0x0A || n == 0x0B || n == 0x0C || n == 0x0D || n == 0x20
    || n == 0xA0 || n == 0x1680 || (0x2000 <= n <= 0x200A) || n == 0x2028
    || n == 0x2029 || n == 0x202F || n == 0x205F || n == 0x3000 || n == 0xFEFF
  }

  /** The literal start of the pattern: \"password\":  (13 characters). */
  const Key: string := "\\\"password\\\":"

  /** The replacement text: \"password\": \"*****\"  (23 characters). */
  const Mask: string := "\\\"password\\\": \\\"*****\\\""

  /** The end of the whitespace run that starts at `i`. */
  function SpaceEnd(s: string, i: nat): (j: nat)
    requires i <= |s|
    ensures i <= j <= |s|
    ensures forall m :: i <= m < j ==> IsSpace(s[m])
    ensures j < |s| ==> !IsSpace(s[j])
    decreases |s| - i
  {
    if i < |s| && IsSpace(s[i]) then SpaceEnd(s, i + 1) else i
  }

  /** The first double quote at or after `i`, or `|s|` when there is none. */
  function QuoteFrom(s: string, i: nat): (k: nat)
    requires i <= |s|
    ensures i <= k <= |s|
    ensures forall m :: i <= m < k ==> s[m] != '"'
    ensures k < |s| ==> s[k] == '"'
    decreases |s| - i
  {
    if i < |s| && s[i] != '"' then QuoteFrom(s, i + 1) else i
  }

  /** The length of the match of the pattern at the start of `s`, if any.
      `\s*` stops at the first non-space (backtracking cannot help, as the
      next pattern character is a backslash), and `[^"]*` cannot pass a double
      quote, so the closing backslash-quote is the first double quote after the
      opening one, which must have a backslash right before it. */
  function MatchLength(s: string): (r: Option<nat>)
    ensures r.Some? ==> 17 <= r.value <= |s| && s[..13] == Key
  {
    if |s| < 13 || s[..13] != Key then None
    else
      var j := SpaceEnd(s, 13);
      if j + 1 < |s| && s[j] == '\\' && s[j + 1] == '"' then
        var k := QuoteFrom(s, j + 2);
        if j + 2 < k < |s| && s[k - 1] == '\\' then Some(k + 1) else None
      else None
  }

  /** The parts of a match after the key: whitespace up to `j`, backslash-quote
      at `j`, then a quote-free value up to the closing backslash-quote. */
  ghost predicate FieldSplit(m: string, j: nat)
    requires 13 <= j <= |m| - 4
  {
    && (forall i :: 13 <= i < j ==> IsSpace(m[i]))
    && m[j] == '\\' && m[j + 1] == '"'
    && (forall i :: j + 2 <= i < |m| - 2 ==> m[i] != '"')
  }

  /** `m` is a string the pattern matches as a whole. */
  ghost predicate IsField(m: string) {
    && 17 <= |m| && m[..13] == Key
    && m[|m| - 2] == '\\' && m[|m| - 1] == '"'
    && exists j :: 13 <= j <= |m| - 4 && FieldSplit(m, j)
  }

  /** The text that comes out of the global replace. The regular expression
      engine tries a match at every position from left to right and resumes
      after each match. A text shorter than the shortest match comes out
      unchanged. */
  function Redact(s: string): (r: string)
    ensures |s| < 17 ==> r == s
    decreases |s|
  {
    if s == [] then []
    else match MatchLength(s)
      case Some(n) => Mask + Redact(s[n..])
      case None => [s[0]] + Redact(s[1..])
  }

  /** Every match the engine finds when it scans `t` is the mask itself. */
  predicate Clean(t: string)
    decreases |t|
  {
    if t == [] then true
    else match MatchLength(t)
      case Some(n) => t[..n] == Mask && Clean(t[n..])
      case None => Clean(t[1..])
  }

  /** No position of `s` starts a match. */
  ghost predicate NoField(s: string) {
    forall i :: 0 <= i <= |s| ==> MatchLength(s[i..]).None?
  }

  lemma SpaceEndIs(s: string, i: nat, j: nat)
    requires i <= j < |s|
    requires forall m :: i <= m < j ==> IsSpace(s[m])
    requires !IsSpace(s[j])
    ensures SpaceEnd(s, i) == j
  {
  }

  lemma QuoteFromIs(s: string, i: nat, k: nat)
    requires i <= k < |s|
    requires forall m :: i <= m < k ==> s[m] != '"'
    requires s[k] == '"'
    ensures QuoteFrom(s, i) == k
  {
  }

  lemma MatchLengthSound(s: string, n: nat)
    requires n <= |s| && MatchLength(s) == Some(n)
    ensures IsField(s[..n])
  {
    var m := s[..n];
    var j := SpaceEnd(s, 13);
    assert m[..13] == s[..13];
    assert 13 <= j <= |m| - 4 && FieldSplit(m, j);
  }

  lemma MatchLengthComplete(s: string, n: nat)
    requires n <= |s| && IsField(s[..n])
    ensures MatchLength(s) == Some(n)
  {
    var m := s[..n];
    var j :| 13 <= j <= |m| - 4 && FieldSplit(m, j);
    assert s[..13] == m[..13];
    SpaceEndIs(s, 13, j);
    QuoteFromIs(s, j + 2, n - 1);
  }

  /** `MatchLength` is the regular expression: it reports a match of length
      `n` exactly when the first `n` characters form a match. */
  lemma MatchLengthIff(s: string, n: nat)
    requires n <= |s|
    ensures MatchLength(s) == Some(n) <==> IsField(s[..n])
  {
    if MatchLength(s) == Some(n) {
      MatchLengthSound(s, n);
    }
    if IsField(s[..n]) {
      MatchLengthComplete(s, n);
    }
  }

  /** The mask is itself a match, whatever follows it. */
  lemma MaskMatches(rest: string)
    ensures MatchLength(Mask + rest) == Some(|Mask|)
  {
    var s := Mask + rest;
    assert s[..|Mask|] == Mask;
    assert FieldSplit(Mask, 14);
    MatchLengthIff(s, |Mask|);
  }

  /** A field at the front is replaced by the mask and the scan resumes after it. */
  lemma RedactReplacesField(f: string, rest: string)
    requires IsField(f)
    ensures Redact(f + rest) == Mask + Redact(rest)
  {
    var s := f + rest;
    assert s[..|f|] == f;
    MatchLengthIff(s, |f|);
    assert s[|f|..] == rest;
  }

  /** Text in which no position starts a match comes out unchanged. */
  lemma {:induction false} RedactWithoutField(s: string)
    requires NoField(s)
    ensures Redact(s) == s
    decreases |s|
  {
    if s != [] {
      assert s[0..] == s;
      assert forall i :: 0 <= i <= |s| - 1 ==> s[1..][i..] == s[i + 1..];
      RedactWithoutField(s[1..]);
      assert [s[0]] + s[1..] == s;
    }
  }

  /** The key has no border: two occurrences cannot overlap. */
  lemma KeyNotOverlapping(x: string, q: nat)
    requires 0 < q < 13 && q + 13 <= |x| && x[q..q + 13] == Key
    ensures x[..13] != Key
  {
    assert x[12] == x[q..q + 13][12 - q];
    assert forall i :: 0 <= i < 12 ==> Key[i] != ':';
    assert x[..13][12] == x[12] != ':';
  }

  lemma PrefixAgree(x: string, y: string, b: nat)
    requires b <= |x| && b <= |y| && x[..b] == y[..b]
    ensures forall m :: 0 <= m < b ==> x[m] == y[m]
  {
    forall m | 0 <= m < b
      ensures x[m] == y[m]
    {
      assert x[..b][m] == y[..b][m];
    }
  }

  lemma SpaceEndAgrees(x: string, y: string, i: nat, p: nat, b: nat)
    requires i <= p < b <= |x| && b <= |y|
    requires forall m :: 0 <= m < b ==> x[m] == y[m]
    requires !IsSpace(x[p])
    ensures SpaceEnd(x, i) == SpaceEnd(y, i) <= p
  {
    var jx, jy := SpaceEnd(x, i), SpaceEnd(y, i);
    assert jx <= p && jy <= p;
    assert !IsSpace(y[jx]) && !IsSpace(x[jy]);
  }

  lemma QuoteFromAgrees(x: string, y: string, i: nat, p: nat, b: nat)
    requires i <= p < b <= |x| && b <= |y|
    requires forall m :: 0 <= m < b ==> x[m] == y[m]
    requires x[p] == '"'
    ensures QuoteFrom(x, i) == QuoteFrom(y, i) <= p
  {
    var kx, ky := QuoteFrom(x, i), QuoteFrom(y, i);
    assert kx <= p && ky <= p;
    assert y[kx] == '"' && x[ky] == '"';
  }

  /** The characters of an occurrence of the key that the scan stops at. */
  lemma KeyChars(x: string, q: nat)
    requires q + 13 <= |x| && x[q..q + 13] == Key
    ensures x[q] == '\\' && x[q + 1] == '"' && x[q + 10] == '\\' && x[q + 11] == '"'
  {
    assert x[q] == x[q..q + 13][0] && x[q + 1] == x[q..q + 13][1];
    assert x[q + 10] == x[q..q + 13][10] && x[q + 11] == x[q..q + 13][11];
  }

  /** The value part of a match ends at the same place in both texts. */
  lemma ValueAgrees(x: string, y: string, j: nat, p: nat, b: nat)
    requires j + 2 <= p < b <= |x| && b <= |y|
    requires forall m :: 0 <= m < b ==> x[m] == y[m]
    requires x[p] == '"'
    ensures var k := QuoteFrom(x, j + 2);
      && k == QuoteFrom(y, j + 2) && k <= p
      && (j + 2 < k ==> x[k - 1] == y[k - 1])
  {
    QuoteFromAgrees(x, y, j + 2, p, b);
  }

  /** The same, for texts that start with the key. */
  lemma MatchLengthLocalFar(x: string, y: string, q: nat)
    requires 13 <= q && q + 13 <= |x| && q + 13 <= |y|
    requires forall m :: 0 <= m < q + 13 ==> x[m] == y[m]
    requires x[q] == '\\' && x[q + 1] == '"' && x[q + 11] == '"'
    requires x[..13] == Key && y[..13] == Key
    ensures MatchLength(x) == MatchLength(y)
  {
    var b := q + 13;
    SpaceEndAgrees(x, y, 13, q, b);
    var j := SpaceEnd(x, 13);
    assert j == SpaceEnd(y, 13) && j <= q;
    assert x[j] == y[j] && x[j + 1] == y[j + 1];
    if x[j] == '\\' && x[j + 1] == '"' {
      if j < q {
        ValueAgrees(x, y, j, q + 1, b);
      } else {
        ValueAgrees(x, y, j, q + 11, b);
      }
    }
  }

  /** Whether a match starts at the front depends only on the text up to the
      end of the next occurrence of the key: the whitespace run, the opening
      and the value all stop at the latest inside that key. */
  lemma MatchLengthLocal(x: string, y: string, q: nat)
    requires 1 <= q && AgreesThroughKey(x, y, q)
    ensures MatchLength(x) == MatchLength(y)
  {
    var b := q + 13;
    PrefixAgree(x, y, b);
    KeyChars(x, q);
    assert x[..13] == y[..13] by {
      assert x[..13] == x[..b][..13] && y[..13] == y[..b][..13];
    }
    if q < 13 {
      KeyNotOverlapping(x, q);
    } else if x[..13] == Key {
      MatchLengthLocalFar(x, y, q);
    }
  }

  lemma ConsAgree(c: char, t: string, r: string, q: nat)
    requires AgreesThroughKey(t, r, q)
    ensures AgreesThroughKey([c] + t, [c] + r, q + 1)
  {
    assert ([c] + t)[..q + 14] == [c] + t[..q + 13];
    assert ([c] + r)[..q + 14] == [c] + r[..q + 13];
    assert ([c] + t)[q + 1..q + 14] == t[q..q + 13];
  }

  /** The mask followed by any text: it starts with the key and is a match
      of its own length. */
  lemma MaskThen(r: string)
    ensures (Mask + r)[..|Mask|] == Mask && (Mask + r)[|Mask|..] == r
    ensures (Mask + r)[..13] == Key
    ensures MatchLength(Mask + r) == Some(|Mask|)
  {
    assert (Mask + r)[..13] == Mask[..13];
    assert Mask[..13] == Key;
    MaskMatches(r);
  }

  /** `r` agrees with `t` up to and including an occurrence of the key at `q`. */
  predicate AgreesThroughKey(t: string, r: string, q: nat) {
    q + 13 <= |t| && q + 13 <= |r| && t[..q + 13] == r[..q + 13] && t[q..q + 13] == Key
  }

  lemma RedactShapeAtMatch(t: string, n: nat)
    requires MatchLength(t) == Some(n)
    ensures AgreesThroughKey(t, Redact(t), 0)
  {
    MaskThen(Redact(t[n..]));
    assert Redact(t) == Mask + Redact(t[n..]);
    assert t[0..13] == t[..13];
  }

  lemma RedactShapeNoMatch(t: string, q': nat) returns (q: nat)
    requires t != [] && MatchLength(t).None?
    requires Redact(t[1..]) == t[1..] || AgreesThroughKey(t[1..], Redact(t[1..]), q')
    ensures Redact(t) == t || AgreesThroughKey(t, Redact(t), q)
  {
    q := q' + 1;
    var c, u, r := t[0], t[1..], Redact(t[1..]);
    assert t == [c] + u;
    assert Redact(t) == [c] + r;
    if r != u {
      ConsAgree(c, u, r, q');
    }
  }

  /** Redaction either changes nothing or agrees with its input up to and
      including the key of the first field it replaced. */
  lemma {:induction false} RedactShape(t: string) returns (q: nat)
    ensures Redact(t) == t || AgreesThroughKey(t, Redact(t), q)
    decreases |t|
  {
    q := 0;
    if t != [] {
      match MatchLength(t)
      case Some(n) =>
        RedactShapeAtMatch(t, n);
      case None =>
        var q' := RedactShape(t[1..]);
        q := RedactShapeNoMatch(t, q');
    }
  }

  /** A position where the engine finds no match in the input still starts no
      match in the output. */
  lemma NoMatchKept(s: string)
    requires s != [] && MatchLength(s).None?
    ensures MatchLength([s[0]] + Redact(s[1..])).None?
  {
    var q := RedactShape(s[1..]);
    PrefixKeepsNoMatch(s, Redact(s[1..]), q);
  }

  /** Replacing the tail by one that agrees with it through a key keeps a
      position without a match. */
  lemma PrefixKeepsNoMatch(s: string, r: string, q: nat)
    requires s != [] && MatchLength(s).None?
    requires r == s[1..] || AgreesThroughKey(s[1..], r, q)
    ensures MatchLength([s[0]] + r).None?
  {
    if r != s[1..] {
      ConsAgree(s[0], s[1..], r, q);
      assert [s[0]] + s[1..] == s;
      MatchLengthLocal(s, [s[0]] + r, q + 1);
    } else {
      assert [s[0]] + s[1..] == s;
    }
  }

  /** After the replace, every match the engine would find holds the mask:
      no scanned password field keeps another value. */
  lemma {:induction false} RedactIsClean(s: string)
    ensures Clean(Redact(s))
    decreases |s|
  {
    if s != [] {
      match MatchLength(s)
      case Some(n) =>
        RedactIsClean(s[n..]);
        MaskThen(Redact(s[n..]));
      case None =>
        RedactIsClean(s[1..]);
        NoMatchKept(s);
        assert ([s[0]] + Redact(s[1..]))[1..] == Redact(s[1..]);
    }
  }

  /** One step of `CleanIffFixpoint` where a match starts at the front. */
  lemma CleanIffFixpointAtMatch(t: string, n: nat)
    requires MatchLength(t) == Some(n)
    requires Clean(t[n..]) <==> Redact(t[n..]) == t[n..]
    ensures Clean(t) <==> Redact(t) == t
  {
    var r := Redact(t[n..]);
    MaskThen(r);
    assert Redact(t) == Mask + r;
    if Redact(t) == t {
      assert n == |Mask|;
      assert t[..n] == Mask && t[n..] == r;
    }
    if Clean(t) {
      assert t[..n] == Mask;
      assert t == t[..n] + t[n..];
    }
  }

  /** One step of `CleanIffFixpoint` where no match starts at the front. */
  lemma CleanIffFixpointNoMatch(t: string)
    requires t != [] && MatchLength(t).None?
    requires Clean(t[1..]) <==> Redact(t[1..]) == t[1..]
    ensures Clean(t) <==> Redact(t) == t
  {
    assert t == [t[0]] + t[1..];
    assert ([t[0]] + Redact(t[1..]))[1..] == Redact(t[1..]);
  }

  /** The texts the redaction leaves unchanged are exactly the clean ones. */
  lemma {:induction false} CleanIffFixpoint(t: string)
    ensures Clean(t) <==> Redact(t) == t
    decreases |t|
  {
    if t != [] {
      match MatchLength(t)
      case Some(n) =>
        CleanIffFixpoint(t[n..]);
        CleanIffFixpointAtMatch(t, n);
      case None =>
        CleanIffFixpoint(t[1..]);
        CleanIffFixpointNoMatch(t);
    }
  }

  /** Applying the replace to its own output changes nothing. */
  lemma RedactIdempotent(s: string)
    ensures Redact(Redact(s)) == Redact(s)
  {
    RedactIsClean(s);
    CleanIffFixpoint(Redact(s));
  }
}
