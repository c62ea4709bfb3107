/** The string operations the plugin applies to each plaintext leaf of a
    WolframAlpha reply (`str.strip`, `str.replace('\\n', '; ')`,
    `re.sub(r'\s+', ' ', ...)`), the `", ".join` of the kept fragments, and
    the decimal rendering of an HTTP status code. */
module Strings {

  /** Python's whitespace class: `str.isspace`, which is also what `\s`
      matches in a `str` pattern of `re`. */
  predicate IsSpace(c: char)
  {
    c == ' ' || ('\t' <= c <= '\r') || ('\U{1C}' <= c <= '\U{1F}')
    || c == '\U{85}' || c == '\U{A0}' || c == '\U{1680}'
    || ('\U{2000}' <= c <= '\U{200A}') || c == '\U{2028}' || c == '\U{2029}'
    || c == '\U{202F}' || c == '\U{205F}' || c == '\U{3000}'
  }

  predicate AllSpace(s: string)
  {
    forall k | 0 <= k < |s| :: IsSpace(s[k])
  }

  /** No two neighbouring whitespace characters. */
  predicate NoSpaceRun(s: string)
  {
    forall k | 0 <= k < |s| - 1 :: !(IsSpace(s[k]) && IsSpace(s[k + 1]))
  }

  /** The only whitespace character left is the plain space. */
  predicate PlainSpacesOnly(s: string)
  {
    forall k | 0 <= k < |s| :: IsSpace(s[k]) ==> s[k] == ' '
  }

  /** The two-character sequence backslash, `n` starts at position k. */
  predicate EscapeAt(s: string, k: int)
  {
    0 <= k < |s| - 1 && s[k] == '\\' && s[k + 1] == 'n'
  }

  predicate HasEscape(s: string)
  {
    exists k | 0 <= k < |s| - 1 :: EscapeAt(s, k)
  }

  /** The non-whitespace characters of s, in order. */
  function Visible(s: string): string
  {
    if s == [] then []
    else if IsSpace(s[0]) then Visible(s[1..])
    else [s[0]] + Visible(s[1..])
  }

  // ---------------------------------------------------------------------
  // str.strip()

  /** Drops the leading whitespace: r is the suffix of s left once every
      leading whitespace character is gone. */
  function StripLeft(s: string): (r: string)
    ensures |r| <= |s| && r == s[|s| - |r|..]
    ensures r != [] ==> !IsSpace(r[0])
  {
    if s != [] && IsSpace(s[0]) then StripLeft(s[1..]) else s
  }

  /** What `lstrip` cuts off is all whitespace. */
  lemma {:induction false} StripLeftCut(s: string)
    ensures AllSpace(s[..|s| - |StripLeft(s)|])
    decreases |s|
  {
    if s != [] && IsSpace(s[0]) {
      var t := StripLeft(s[1..]);
      StripLeftCut(s[1..]);
      assert s[..|s| - |t|] == [s[0]] + s[1..][..|s| - 1 - |t|];
    }
  }

  /** Drops the trailing whitespace: r is the prefix of s left once every
      trailing whitespace character is gone. */
  function StripRight(s: string): (r: string)
    ensures |r| <= |s| && r == s[..|r|]
    ensures r != [] ==> !IsSpace(r[|r| - 1])
  {
    if s != [] && IsSpace(s[|s| - 1]) then StripRight(s[..|s| - 1]) else s
  }

  /** What `rstrip` cuts off is all whitespace. */
  lemma {:induction false} StripRightCut(s: string)
    ensures AllSpace(s[|StripRight(s)|..])
    decreases |s|
  {
    if s != [] && IsSpace(s[|s| - 1]) {
      var t := StripRight(s[..|s| - 1]);
      StripRightCut(s[..|s| - 1]);
      assert s[|t|..] == s[..|s| - 1][|t|..] + [s[|s| - 1]];
    }
  }

  /** `str.strip()` with no argument. */
  function Strip(s: string): (r: string)
    ensures |r| <= |s|
  {
    StripRight(StripLeft(s))
  }

  /** The stripped text neither starts nor ends with whitespace, and a text
      that does not start with whitespace keeps its first character. */
  lemma StripEnds(s: string)
    ensures var r := Strip(s);
      (r != [] ==> !IsSpace(r[0]) && !IsSpace(r[|r| - 1]))
      && (s != [] && !IsSpace(s[0]) ==> r != [] && r[0] == s[0])
  {
    var t := StripLeft(s);
    var r := StripRight(t);
    StripRightCut(t);
    assert r != [] ==> r[0] == t[0];
    assert s != [] && !IsSpace(s[0]) ==> t == s;
  }

  /** `strip()` leaves nothing exactly when the input is all whitespace. */
  lemma StripEmpty(s: string)
    ensures Strip(s) == [] <==> AllSpace(s)
  {
    var t := StripLeft(s);
    StripLeftCut(s);
    if t == [] {
      assert s[..|s| - |t|] == s;
    } else {
      StripRightCut(t);
      assert !IsSpace(s[|s| - |t|]);
    }
  }

  /** Stripping twice strips no more than stripping once. */
  lemma StripIdempotent(s: string)
    ensures Strip(Strip(s)) == Strip(s)
  {
    var r := Strip(s);
    if r != [] {
      assert StripLeft(r) == r;
      assert StripRight(r) == r;
    }
  }

  // ---------------------------------------------------------------------
  // str.replace('\\n', '; ')

  /** `str.replace` of the literal backslash-`n` pair by `"; "`, scanning
      from the left. */
  function ReplaceEscapes(s: string): (r: string)
    ensures |r| == |s|
  {
    if |s| >= 2 && s[0] == '\\' && s[1] == 'n' then "; " + ReplaceEscapes(s[2..])
    else if s == [] then []
    else [s[0]] + ReplaceEscapes(s[1..])
  }

  /** Every backslash-`n` pair is rewritten to `"; "` in place. */
  lemma {:induction false} ReplaceRewrites(s: string)
    ensures forall k | EscapeAt(s, k) :: ReplaceEscapes(s)[k] == ';' && ReplaceEscapes(s)[k + 1] == ' '
    decreases |s|
  {
    if |s| >= 2 && s[0] == '\\' && s[1] == 'n' {
      ReplaceRewrites(s[2..]);
      assert forall k | EscapeAt(s, k) && k >= 2 :: EscapeAt(s[2..], k - 2);
    } else if s != [] {
      ReplaceRewrites(s[1..]);
      assert forall k | EscapeAt(s, k) && k >= 1 :: EscapeAt(s[1..], k - 1);
    }
  }

  /** Every character outside a backslash-`n` pair is kept in place. */
  lemma {:induction false} ReplaceKeeps(s: string)
    ensures forall k | 0 <= k < |s| && !EscapeAt(s, k) && !EscapeAt(s, k - 1) ::
              ReplaceEscapes(s)[k] == s[k]
    decreases |s|
  {
    if |s| >= 2 && s[0] == '\\' && s[1] == 'n' {
      ReplaceKeeps(s[2..]);
      assert forall k | 2 <= k < |s| && !EscapeAt(s, k) && !EscapeAt(s, k - 1) ::
        !EscapeAt(s[2..], k - 2) && !EscapeAt(s[2..], k - 3);
    } else if s != [] {
      ReplaceKeeps(s[1..]);
      assert forall k | 1 <= k < |s| && !EscapeAt(s, k) && !EscapeAt(s, k - 1) ::
        !EscapeAt(s[1..], k - 1) && !EscapeAt(s[1..], k - 2);
    }
  }

  /** The replacement starts with the same character, or with the `;` of a
      rewritten pair. */
  lemma ReplaceFirst(s: string)
    ensures s != [] ==> ReplaceEscapes(s)[0] == s[0] || ReplaceEscapes(s)[0] == ';'
  {
    ReplaceRewrites(s);
    ReplaceKeeps(s);
    if s != [] && !EscapeAt(s, 0) {
      assert !EscapeAt(s, -1);
    }
  }

  /** After the replacement no backslash-`n` pair is left: the pattern
      cannot overlap itself, so every occurrence is rewritten, and `"; "`
      cannot start or finish a new one. */
  lemma ReplaceLeavesNoEscape(s: string)
    ensures !HasEscape(ReplaceEscapes(s))
  {
    var r := ReplaceEscapes(s);
    ReplaceRewrites(s);
    ReplaceKeeps(s);
    forall k | 0 <= k < |r| - 1 ensures !EscapeAt(r, k) {
      if EscapeAt(s, k) {
        assert r[k] == ';';
      } else if EscapeAt(s, k - 1) {
        assert r[k] == ' ';
      } else if s[k] != '\\' {
        assert r[k] == s[k];
      } else if EscapeAt(s, k + 1) {
        assert r[k + 1] == ';';
      } else {
        assert r[k + 1] == s[k + 1] != 'n';
      }
    }
  }

  // ---------------------------------------------------------------------
  // re.sub(r'\s+', ' ', s)

  /** Every maximal run of whitespace becomes one plain space. */
  function Collapse(s: string): (r: string)
    decreases |s|
    ensures |r| <= |s|
    ensures r == [] <==> s == []
  {
    if s == [] then []
    else if IsSpace(s[0]) then
      var t := StripLeft(s);
      assert t != [] ==> t[0] == s[|s| - |t|];
      [' '] + Collapse(t)
    else [s[0]] + Collapse(s[1..])
  }

  /** The result starts with a plain space where the input starts with
      whitespace, and with the input's first character otherwise. */
  lemma CollapseHead(s: string)
    requires s != []
    ensures Collapse(s)[0] == (if IsSpace(s[0]) then ' ' else s[0])
  {
  }

  /** The substitution leaves no whitespace run, and no whitespace
      character other than the plain space. */
  lemma {:induction false} CollapseSpacing(s: string)
    ensures NoSpaceRun(Collapse(s)) && PlainSpacesOnly(Collapse(s))
    decreases |s|
  {
    if s != [] {
      var t := if IsSpace(s[0]) then StripLeft(s) else s[1..];
      var c := if IsSpace(s[0]) then ' ' else s[0];
      var rest := Collapse(t);
      var r := Collapse(s);
      CollapseSpacing(t);
      assert r == [c] + rest;
      assert rest != [] ==> !IsSpace(c) || !IsSpace(rest[0]);
      forall k | 0 <= k < |r| - 1
        ensures !(IsSpace(r[k]) && IsSpace(r[k + 1]))
      {
        if k > 0 {
          assert r[k] == rest[k - 1] && r[k + 1] == rest[k];
        }
      }
      forall k | 0 <= k < |r|
        ensures IsSpace(r[k]) ==> r[k] == ' '
      {
        if k > 0 {
          assert r[k] == rest[k - 1];
        }
      }
    }
  }

  /** `lstrip` of a text that holds a non-whitespace character only looks
      at that text, whatever follows it. */
  lemma {:induction false} StripLeftConcat(a: string, c: string)
    requires a != [] && !IsSpace(a[|a| - 1])
    ensures StripLeft(a + c) == StripLeft(a) + c
    decreases |a|
  {
    if IsSpace(a[0]) {
      assert (a + c)[1..] == a[1..] + c;
      StripLeftConcat(a[1..], c);
    }
  }

  /** Regrouping a concatenation; stated once so that proofs in a large
      context need not rediscover it. */
  lemma Associative(x: string, y: string, z: string)
    ensures x + (y + z) == x + y + z
  {
  }

  /** No whitespace run straddles the end of a text that ends in a
      non-whitespace character, so such a text collapses on its own. */
  lemma {:induction false} CollapseAppend(a: string, c: string)
    requires a == [] || !IsSpace(a[|a| - 1])
    ensures Collapse(a + c) == Collapse(a) + Collapse(c)
    decreases |a|
  {
    if a == [] {
      assert a + c == c;
    } else if IsSpace(a[0]) {
      CollapseAppendSpace(a, c);
    } else {
      CollapseAppendVisible(a, c);
    }
  }

  lemma CollapseAppendSpace(a: string, c: string)
    requires a != [] && IsSpace(a[0]) && !IsSpace(a[|a| - 1])
    ensures Collapse(a + c) == Collapse(a) + Collapse(c)
    decreases |a|, 0
  {
    var t := StripLeft(a);
    StripLeftConcat(a, c);
    assert t != [] && t[|t| - 1] == a[|a| - 1] by {
      StripLeftCut(a);
    }
    assert (a + c)[0] == a[0];
    assert Collapse(a + c) == [' '] + Collapse(t + c);
    CollapseAppend(t, c);
    assert Collapse(a) == [' '] + Collapse(t);
    Associative([' '], Collapse(t), Collapse(c));
  }

  lemma CollapseAppendVisible(a: string, c: string)
    requires a != [] && !IsSpace(a[0]) && !IsSpace(a[|a| - 1])
    ensures Collapse(a + c) == Collapse(a) + Collapse(c)
    decreases |a|, 0
  {
    var rest := a[1..];
    assert (a + c)[0] == a[0];
    assert (a + c)[1..] == rest + c;
    assert Collapse(a + c) == [a[0]] + Collapse(rest + c);
    CollapseAppend(rest, c);
    assert Collapse(a) == [a[0]] + Collapse(rest);
    Associative([a[0]], Collapse(rest), Collapse(c));
  }

  /** A whitespace run between two texts that do not touch it with
      whitespace of their own becomes exactly one plain space. */
  lemma CollapseRun(a: string, w: string, b: string)
    requires a == [] || !IsSpace(a[|a| - 1])
    requires w != [] && AllSpace(w)
    requires b == [] || !IsSpace(b[0])
    ensures Collapse(a + w + b) == Collapse(a) + " " + Collapse(b)
  {
    var cb := Collapse(b);
    assert Collapse(w + b) == [' '] + cb by {
      assert IsSpace((w + b)[0]);
      StripLeftSpaces(w, b);
    }
    Associative(a, w, b);
    CollapseAppend(a, w + b);
    Associative(Collapse(a), [' '], cb);
  }

  /** A string that already has no whitespace run and only plain spaces is
      left alone by the substitution. */
  lemma {:induction false} CollapseFixes(s: string)
    requires NoSpaceRun(s) && PlainSpacesOnly(s)
    ensures Collapse(s) == s
    decreases |s|
  {
    if s != [] {
      if IsSpace(s[0]) {
        assert |s| > 1 ==> !IsSpace(s[1]);
        assert StripLeft(s) == s[1..] by {
          assert StripLeft(s) == StripLeft(s[1..]);
          assert StripLeft(s[1..]) == s[1..];
        }
      }
      CollapseFixes(s[1..]);
    }
  }

  /** Collapsing whitespace is idempotent. */
  lemma CollapseIdempotent(s: string)
    ensures Collapse(Collapse(s)) == Collapse(s)
  {
    CollapseSpacing(s);
    CollapseFixes(Collapse(s));
  }

  lemma {:induction false} StripLeftKeepsVisible(s: string)
    ensures Visible(StripLeft(s)) == Visible(s)
    decreases |s|
  {
    if s != [] && IsSpace(s[0]) {
      StripLeftKeepsVisible(s[1..]);
    }
  }

  /** The substitution touches whitespace only: the other characters come
      out unchanged and in order. */
  lemma {:induction false} CollapseKeepsVisible(s: string)
    ensures Visible(Collapse(s)) == Visible(s)
    decreases |s|
  {
    if s != [] {
      if IsSpace(s[0]) {
        var t := StripLeft(s);
        CollapseKeepsVisible(t);
        StripLeftKeepsVisible(s);
        assert Collapse(s) == [' '] + Collapse(t);
        assert ([' '] + Collapse(t))[1..] == Collapse(t);
      } else {
        CollapseKeepsVisible(s[1..]);
        assert ([s[0]] + Collapse(s[1..]))[1..] == Collapse(s[1..]);
      }
    }
  }

  lemma NoEscapeSuffix(s: string, i: nat)
    requires i <= |s| && !HasEscape(s)
    ensures !HasEscape(s[i..])
  {
    forall k | 0 <= k < |s[i..]| - 1 ensures !EscapeAt(s[i..], k) {
      assert !EscapeAt(s, k + i);
    }
  }

  lemma NoEscapeCons(c: char, u: string)
    requires !HasEscape(u) && (u == [] || c != '\\' || u[0] != 'n')
    ensures !HasEscape([c] + u)
  {
    var r := [c] + u;
    forall k | 0 <= k < |r| - 1
      ensures !EscapeAt(r, k)
    {
      if k > 0 {
        assert !EscapeAt(u, k - 1);
      }
    }
  }

  /** The substitution cannot bring a backslash next to an `n`: a run of
      whitespace between them turns into a space, never into nothing. */
  lemma {:induction false} CollapseKeepsNoEscape(s: string)
    requires !HasEscape(s)
    ensures !HasEscape(Collapse(s))
    decreases |s|
  {
    if s != [] && IsSpace(s[0]) {
      var t := StripLeft(s);
      NoEscapeSuffix(s, |s| - |t|);
      CollapseKeepsNoEscape(t);
      NoEscapeCons(' ', Collapse(t));
    } else if s != [] {
      var t := s[1..];
      NoEscapeSuffix(s, 1);
      CollapseKeepsNoEscape(t);
      assert !EscapeAt(s, 0);
      NoEscapeCons(s[0], Collapse(t));
    }
  }

  // ---------------------------------------------------------------------
  // The per-fragment normalisation

  /** What the plugin keeps of one plaintext leaf: stripped, with every
      backslash-`n` pair turned into `"; "`, and whitespace runs collapsed. */
  function Normalize(s: string): string
  {
    Collapse(ReplaceEscapes(Strip(s)))
  }

  /** A normalised fragment is empty exactly when the leaf is all
      whitespace; otherwise it starts with no whitespace, and it never holds
      a whitespace run or a backslash-`n` pair. */
  lemma NormalizeWellFormed(s: string)
    ensures var r := Normalize(s);
            (r == [] <==> AllSpace(s)) && (r != [] ==> !IsSpace(r[0]))
            && NoSpaceRun(r) && !HasEscape(r)
  {
    var stripped := Strip(s);
    var replaced := ReplaceEscapes(stripped);
    StripEmpty(s);
    ReplaceLeavesNoEscape(stripped);
    CollapseKeepsNoEscape(replaced);
    CollapseSpacing(replaced);
    ReplaceFirst(stripped);
  }

  /** A word as WolframAlpha's leaves typically hold one: no whitespace and
      no backslash-`n` pair. */
  predicate Bare(w: string)
  {
    (forall k | 0 <= k < |w| :: !IsSpace(w[k])) && !HasEscape(w)
  }

  lemma ReplaceNoEscape(s: string)
    requires !HasEscape(s)
    ensures ReplaceEscapes(s) == s
  {
    var r := ReplaceEscapes(s);
    ReplaceKeeps(s);
    forall k | 0 <= k < |s|
      ensures r[k] == s[k]
    {
      assert !EscapeAt(s, k) && !EscapeAt(s, k - 1);
    }
  }

  lemma {:induction false} StripLeftSpaces(p: string, t: string)
    requires AllSpace(p) && (t == [] || !IsSpace(t[0]))
    ensures StripLeft(p + t) == t
    decreases |p|
  {
    if p == [] {
      assert p + t == t;
    } else {
      assert (p + t)[1..] == p[1..] + t;
      StripLeftSpaces(p[1..], t);
    }
  }

  lemma {:induction false} StripRightSpaces(t: string, q: string)
    requires AllSpace(q) && (t == [] || !IsSpace(t[|t| - 1]))
    ensures StripRight(t + q) == t
    decreases |q|
  {
    if q == [] {
      assert t + q == t;
    } else {
      var q' := q[..|q| - 1];
      assert (t + q)[..|t + q| - 1] == t + q';
      StripRightSpaces(t, q');
    }
  }

  /** Surrounding whitespace goes and a bare word is kept as it is. */
  lemma NormalizePadded(p: string, w: string, q: string)
    requires AllSpace(p) && AllSpace(q) && Bare(w) && w != []
    ensures Normalize(p + w + q) == w
  {
    assert p + w + q == p + (w + q);
    assert (w + q)[0] == w[0];
    StripLeftSpaces(p, w + q);
    StripRightSpaces(w, q);
    ReplaceNoEscape(w);
    CollapseFixes(w);
  }

  lemma ReplaceBetween(a: string, b: string)
    requires !HasEscape(a) && !HasEscape(b)
    ensures ReplaceEscapes(a + "\\n" + b) == a + "; " + b
  {
    var s := a + "\\n" + b;
    var r := a + "; " + b;
    var e := ReplaceEscapes(s);
    ReplaceRewrites(s);
    ReplaceKeeps(s);
    assert EscapeAt(s, |a|);
    forall k | 0 <= k < |s|
      ensures e[k] == r[k]
    {
      if k < |a| {
        assert !EscapeAt(a, k) && !EscapeAt(a, k - 1);
        assert !EscapeAt(s, k) && !EscapeAt(s, k - 1);
      } else if k >= |a| + 2 {
        var j := k - |a| - 2;
        assert !EscapeAt(b, j) && !EscapeAt(b, j - 1);
        assert !EscapeAt(s, k) && !EscapeAt(s, k - 1);
      }
    }
  }

  lemma StripBetween(a: string, b: string)
    requires Bare(a) && Bare(b)
    ensures Strip(a + "\\n" + b) == a + "\\n" + b
  {
    var s := a + "\\n" + b;
    assert !IsSpace(s[0]) && !IsSpace(s[|s| - 1]);
    assert StripLeft(s) == s;
    assert StripRight(s) == s;
  }

  lemma SpacingBetween(a: string, b: string)
    requires Bare(a) && Bare(b)
    ensures NoSpaceRun(a + "; " + b) && PlainSpacesOnly(a + "; " + b)
  {
    var r := a + "; " + b;
    forall k | 0 <= k < |r| && k != |a| + 1
      ensures !IsSpace(r[k])
    {
      if k >= |a| + 2 {
        assert r[k] == b[k - |a| - 2];
      }
    }
  }

  /** A backslash-`n` between two bare words becomes `"; "`. */
  lemma NormalizeEscaped(a: string, b: string)
    requires Bare(a) && Bare(b)
    ensures Normalize(a + "\\n" + b) == a + "; " + b
  {
    StripBetween(a, b);
    ReplaceBetween(a, b);
    SpacingBetween(a, b);
    CollapseFixes(a + "; " + b);
  }

  /** A trailing backslash-`n` is turned into `"; "` and its space is kept. */
  lemma NormalizeTrailingEscape(a: string)
    requires Bare(a)
    ensures Normalize(a + "\\n") == a + "; "
  {
    NormalizeEscaped(a, []);
    assert a + "\\n" + [] == a + "\\n";
    assert a + "; " + [] == a + "; ";
  }

  lemma BareSemicolon(a: string)
    requires Bare(a)
    ensures Bare(a + ";")
  {
    var t := a + ";";
    forall k | 0 <= k < |t| - 1
      ensures !EscapeAt(t, k)
    {
      assert !EscapeAt(a, k);
    }
  }

  /** Normalisation is not idempotent: the trailing space that
      NormalizeTrailingEscape leaves is stripped by a second pass. */
  lemma NormalizeNotIdempotent(a: string)
    requires Bare(a)
    ensures Normalize(Normalize(a + "\\n")) == a + ";" != Normalize(a + "\\n")
  {
    assert Normalize(a + "\\n") == a + "; " by {
      NormalizeTrailingEscape(a);
    }
    SecondPass(a);
  }

  lemma SecondPass(a: string)
    requires Bare(a)
    ensures Normalize(a + "; ") == a + ";"
  {
    BareSemicolon(a);
    NormalizePadded([], a + ";", " ");
    SemicolonSpace(a);
  }

  /** Regroups the padded text of SecondPass; proved character by character
      because the solver does not find it inside that lemma. */
  lemma SemicolonSpace(a: string)
    ensures [] + (a + ";") + " " == a + "; "
  {
    var l, r := [] + (a + ";") + " ", a + "; ";
    assert |l| == |r|;
    forall k | 0 <= k < |l|
      ensures l[k] == r[k]
    {
      if k < |a| {
        assert l[k] == a[k] == r[k];
      }
    }
  }

  // ---------------------------------------------------------------------
  // str.join and str(int)

  /** `sep.join(xs)`. */
  function Join(sep: string, xs: seq<string>): (r: string)
    ensures xs == [] ==> r == []
    ensures xs != [] ==> |xs[0]| <= |r| && r[..|xs[0]|] == xs[0]
    ensures xs != [] ==> |xs[|xs| - 1]| <= |r| && r[|r| - |xs[|xs| - 1]|..] == xs[|xs| - 1]
  {
    if xs == [] then []
    else if |xs| == 1 then xs[0]
    else xs[0] + sep + Join(sep, xs[1..])
  }

  predicate IsDigit(c: char)
  {
    '0' <= c <= '9'
  }

  predicate AllDigits(s: string)
  {
    forall k | 0 <= k < |s| :: IsDigit(s[k])
  }

  function DigitChar(d: nat): (c: char)
    requires d < 10
  {
    (48 + d) as char
  }

  /** `str(n)` for a non-negative integer: its decimal digits, without
      leading zeros. */
  function Decimal(n: nat): (r: string)
    ensures r != [] && AllDigits(r)
    ensures r[0] == '0' ==> n == 0 && r == "0"
  {
    if n < 10 then [DigitChar(n)]
    else Decimal(n / 10) + [DigitChar(n % 10)]
  }

  /** The integer a string of decimal digits denotes. */
  function DecimalValue(s: string): nat
    requires AllDigits(s)
  {
    if s == [] then 0
    else DecimalValue(s[..|s| - 1]) * 10 + (s[|s| - 1] as int - 48)
  }

  /** `str(n)` can be read back: the status code is recoverable from the
      digits. */
  lemma {:induction false} DecimalRoundTrip(n: nat)
    ensures DecimalValue(Decimal(n)) == n
    decreases n
  {
    if n >= 10 {
      DecimalRoundTrip(n / 10);
      var s := Decimal(n);
      assert s[..|s| - 1] == Decimal(n / 10);
    }
  }
}
