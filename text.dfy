/**
 * The JavaScript string primitives the pitch builder relies on, over `string`
 * (one `char` per Unicode scalar value; JavaScript counts UTF-16 code units,
 * so a character outside the Basic Multilingual Plane is one `char` here and
 * two units there, and lone surrogates are not represented): the `\s` character
 * class, the `\b` word characters, ASCII lower-casing, `includes`, `indexOf`,
 * a `\bword\b` regular-expression test, `trim`, `split(/\s+/)`, `split(' ')`
 * and `join`.
 */
module Text {
  import opened Wrappers

  /** A member of JavaScript's `\s` class; `String.prototype.trim` strips exactly these. */
  predicate IsSpace(c: char) {
    c == ' ' || '\t' <= c <= '\r' || c == '\U{A0}' || c == '\U{1680}'
    || '\U{2000}' <= c <= '\U{200A}' || c == '\U{2028}' || c == '\U{2029}'
    || c == '\U{202F}' || c == '\U{205F}' || c == '\U{3000}' || c == '\U{FEFF}'
  }

  /** A word character for the regular-expression assertion `\b`: `[A-Za-z0-9_]`. */
  predicate IsWordChar(c: char) {
    'a' <= c <= 'z' || 'A' <= c <= 'Z' || '0' <= c <= '9' || c == '_'
  }

  /** A non-empty run of word characters. */
  predicate IsWord(w: string) {
    w != [] && forall j | 0 <= j < |w| :: IsWordChar(w[j])
  }

  predicate AllSpace(s: string) {
    forall i | 0 <= i < |s| :: IsSpace(s[i])
  }

  predicate NoSpace(s: string) {
    forall i | 0 <= i < |s| :: !IsSpace(s[i])
  }

  function LowerChar(c: char): char {
    if 'A' <= c <= 'Z' then (c as int + 32) as char else c
  }

  /**
   * `toLowerCase`, restricted to the ASCII letters: the result has no capital
   * letter left, and only capital letters were changed.
   */
  function Lower(s: string): (r: string)
    ensures |r| == |s|
    ensures forall i | 0 <= i < |r| :: !('A' <= r[i] <= 'Z')
    ensures forall i | 0 <= i < |s| && !('A' <= s[i] <= 'Z') :: r[i] == s[i]
  {
    seq(|s|, i requires 0 <= i < |s| => LowerChar(s[i]))
  }

  lemma LowerConcat(a: string, b: string)
    ensures Lower(a + b) == Lower(a) + Lower(b)
  {
    assert forall i | 0 <= i < |a + b| :: Lower(a + b)[i] == (Lower(a) + Lower(b))[i];
  }

  /** `w` occurs in `s` starting at index `i`. */
  predicate OccursAt(s: string, w: string, i: int) {
    0 <= i && i + |w| <= |s| && s[i..i + |w|] == w
  }

  /** `s.includes(w)`. */
  predicate Contains(s: string, w: string)
    ensures w == [] ==> Contains(s, w)
    ensures Contains(s, w) ==> |w| <= |s|
  {
    assert w == [] ==> OccursAt(s, w, 0);
    exists i | 0 <= i <= |s| - |w| :: OccursAt(s, w, i)
  }

  /** The regular-expression assertion `\b` at position `p` of `s`. */
  predicate IsBoundary(s: string, p: int) {
    0 <= p <= |s| && ((p > 0 && IsWordChar(s[p - 1])) != (p < |s| && IsWordChar(s[p])))
  }

  /** `new RegExp('\\b' + w + '\\b').test(s)` for a `w` without regular-expression metacharacters. */
  predicate HasWholeWord(s: string, w: string)
    ensures HasWholeWord(s, w) ==> Contains(s, w)
  {
    exists i | 0 <= i <= |s| - |w| :: OccursAt(s, w, i) && IsBoundary(s, i) && IsBoundary(s, i + |w|)
  }

  /** A match inside a piece of a text is a match inside the whole text. */
  lemma ContainsInContext(pre: string, mid: string, post: string, w: string)
    requires Contains(mid, w)
    ensures Contains(pre + mid + post, w)
  {
    var i :| 0 <= i <= |mid| - |w| && OccursAt(mid, w, i);
    OccursInContext(pre, mid, post, w, i);
  }

  lemma OccursInContext(pre: string, mid: string, post: string, w: string, i: int)
    requires OccursAt(mid, w, i)
    ensures OccursAt(pre + mid + post, w, |pre| + i)
  {
    assert (pre + mid + post)[|pre| + i..|pre| + i + |w|] == mid[i..i + |w|];
  }

  /**
   * Inside a piece of a text delimited by non-word characters (or nothing),
   * the `\b` positions of the piece are those of the whole text.
   */
  lemma BoundaryInContext(pre: string, mid: string, post: string, p: int)
    requires 0 <= p <= |mid|
    requires pre == [] || !IsWordChar(pre[|pre| - 1])
    requires post == [] || !IsWordChar(post[0])
    ensures IsBoundary(pre + mid + post, |pre| + p) <==> IsBoundary(mid, p)
  {
    var s := pre + mid + post;
    var q := |pre| + p;
    var before := q > 0 && IsWordChar(s[q - 1]);
    var after := q < |s| && IsWordChar(s[q]);
    if p > 0 { assert s[q - 1] == mid[p - 1]; } else if pre != [] { assert s[q - 1] == pre[|pre| - 1]; }
    assert before == (p > 0 && IsWordChar(mid[p - 1]));
    if p < |mid| { assert s[q] == mid[p]; } else if post != [] { assert s[q] == post[0]; }
    assert after == (p < |mid| && IsWordChar(mid[p]));
  }

  /**
   * A whole-word match inside a piece of a text stays a whole-word match once
   * the piece is surrounded by non-word characters (or nothing).
   */
  lemma WholeWordInContext(pre: string, mid: string, post: string, w: string)
    requires HasWholeWord(mid, w)
    requires pre == [] || !IsWordChar(pre[|pre| - 1])
    requires post == [] || !IsWordChar(post[0])
    ensures HasWholeWord(pre + mid + post, w)
  {
    var i :| 0 <= i <= |mid| - |w| && OccursAt(mid, w, i) && IsBoundary(mid, i) && IsBoundary(mid, i + |w|);
    OccursInContext(pre, mid, post, w, i);
    BoundaryInContext(pre, mid, post, i);
    BoundaryInContext(pre, mid, post, i + |w|);
  }

  /** Leading whitespace removed (the first half of `trim`). */
  function TrimStart(s: string): (r: string)
    ensures |r| <= |s| && r == s[|s| - |r|..]
    ensures AllSpace(s[..|s| - |r|])
    ensures r == [] || !IsSpace(r[0])
    decreases |s|
  {
    if |s| > 0 && IsSpace(s[0]) then
      var r := TrimStart(s[1..]);
      assert s[1..][|s| - 1 - |r|..] == s[|s| - |r|..];
      AllSpaceCons(s[0], s[1..][..|s| - 1 - |r|]);
      assert [s[0]] + s[1..][..|s| - 1 - |r|] == s[..|s| - |r|];
      r
    else
      assert s[..0] == [];
      s
  }

  lemma AllSpaceCons(c: char, x: string)
    requires IsSpace(c) && AllSpace(x)
    ensures AllSpace([c] + x)
  {
    assert forall i | 1 <= i < |[c] + x| :: ([c] + x)[i] == x[i - 1];
  }

  /** Trailing whitespace removed (the second half of `trim`). */
  function TrimEnd(s: string): (r: string)
    ensures |r| <= |s| && r == s[..|r|]
    ensures AllSpace(s[|r|..])
    ensures r == [] || !IsSpace(r[|r| - 1])
    decreases |s|
  {
    if |s| > 0 && IsSpace(s[|s| - 1]) then
      var r := TrimEnd(s[..|s| - 1]);
      assert s[..|s| - 1][..|r|] == s[..|r|];
      AllSpaceSnoc(s[..|s| - 1][|r|..], s[|s| - 1]);
      assert s[..|s| - 1][|r|..] + [s[|s| - 1]] == s[|r|..];
      r
    else
      assert s[|s|..] == [];
      s
  }

  lemma AllSpaceSnoc(x: string, c: char)
    requires AllSpace(x) && IsSpace(c)
    ensures AllSpace(x + [c])
  {
    assert forall i | 0 <= i < |x| :: (x + [c])[i] == x[i];
  }

  /** `s.trim()`: the text between the leading and the trailing whitespace. */
  function Trim(s: string): (r: string)
    ensures |r| <= |s|
    ensures r == [] || (!IsSpace(r[0]) && !IsSpace(r[|r| - 1]))
  {
    var t := TrimStart(s);
    var r := TrimEnd(t);
    assert r == [] || r[0] == t[0];
    r
  }

  /** `trim` removes whitespace only: what it keeps sits between a whitespace prefix and a whitespace suffix. */
  lemma TrimKeepsMiddle(s: string) returns (lead: nat)
    ensures lead + |Trim(s)| <= |s|
    ensures AllSpace(s[..lead]) && s[lead..lead + |Trim(s)|] == Trim(s) && AllSpace(s[lead + |Trim(s)|..])
  {
    var t := TrimStart(s);
    lead := |s| - |t|;
    SpaceAroundMiddle(s, lead, t, TrimEnd(t));
  }

  /** A suffix `t` of `s` after `lead` whitespace characters, cut to a prefix `r` before whitespace, sits between the two runs. */
  lemma SpaceAroundMiddle(s: string, lead: nat, t: string, r: string)
    requires lead + |t| == |s| && t == s[lead..] && AllSpace(s[..lead])
    requires |r| <= |t| && r == t[..|r|] && AllSpace(t[|r|..])
    ensures lead + |r| <= |s| && s[lead..lead + |r|] == r && AllSpace(s[lead + |r|..])
  {
    assert s[lead + |r|..] == t[|r|..];
  }

  lemma {:induction false} TrimStartOfSpaces(a: string, m: string)
    requires AllSpace(a)
    requires m == [] || !IsSpace(m[0])
    ensures TrimStart(a + m) == m
  {
    if a != [] {
      assert (a + m)[1..] == a[1..] + m;
      TrimStartOfSpaces(a[1..], m);
    }
  }

  lemma {:induction false} TrimEndOfSpaces(m: string, b: string)
    requires AllSpace(b)
    requires m == [] || !IsSpace(m[|m| - 1])
    ensures TrimEnd(m + b) == m
  {
    if b != [] {
      assert (m + b)[..|m + b| - 1] == m + b[..|b| - 1];
      TrimEndOfSpaces(m, b[..|b| - 1]);
    }
  }

  /**
   * `trim` is determined by what it keeps: whitespace around a text that
   * neither starts nor ends with whitespace is removed, and nothing else.
   */
  lemma TrimUnique(a: string, m: string, b: string)
    requires AllSpace(a) && AllSpace(b)
    requires m == [] || (!IsSpace(m[0]) && !IsSpace(m[|m| - 1]))
    ensures Trim(a + m + b) == m
  {
    if m == [] {
      assert a + m + b == a + b;
      TrimStartOfSpaces(a + b, []);
      assert a + b + [] == a + b;
    } else {
      assert a + m + b == a + (m + b);
      TrimStartOfSpaces(a, m + b);
      TrimEndOfSpaces(m, b);
    }
  }

  /** Whitespace appended to a text does not change what `trim` returns. */
  lemma TrimIgnoresTrailingSpace(s: string, b: string)
    requires AllSpace(b)
    ensures Trim(s + b) == Trim(s)
  {
    var t := TrimStart(s);
    var m := TrimEnd(t);
    AllSpaceConcat(t[|m|..], b);
    RegroupAroundTrim(s, t, m, b);
    TrimUnique(s[..|s| - |t|], m, t[|m|..] + b);
  }

  lemma AllSpaceConcat(x: string, y: string)
    requires AllSpace(x) && AllSpace(y)
    ensures AllSpace(x + y)
  {
    assert forall i | |x| <= i < |x + y| :: (x + y)[i] == y[i - |x|];
  }

  lemma RegroupAroundTrim(s: string, t: string, m: string, b: string)
    requires |t| <= |s| && t == s[|s| - |t|..]
    requires |m| <= |t| && m == t[..|m|]
    ensures s + b == s[..|s| - |t|] + m + (t[|m|..] + b)
  {
    assert s == s[..|s| - |t|] + t;
    assert t == m + t[|m|..];
  }

  /**
   * The converse: a whole-word match lying inside a piece delimited by
   * non-word characters (or nothing) is a whole-word match of the piece.
   */
  lemma WholeWordOutOfContext(pre: string, mid: string, post: string, w: string, i: int)
    requires OccursAt(pre + mid + post, w, i)
    requires IsBoundary(pre + mid + post, i) && IsBoundary(pre + mid + post, i + |w|)
    requires |pre| <= i && i + |w| <= |pre| + |mid|
    requires pre == [] || !IsWordChar(pre[|pre| - 1])
    requires post == [] || !IsWordChar(post[0])
    ensures HasWholeWord(mid, w)
  {
    var p := i - |pre|;
    assert mid[p..p + |w|] == (pre + mid + post)[i..i + |w|];
    BoundaryInContext(pre, mid, post, p);
    BoundaryInContext(pre, mid, post, p + |w|);
    assert OccursAt(mid, w, p) && IsBoundary(mid, p) && IsBoundary(mid, p + |w|);
  }

  /** An occurrence of a word made of word characters does not cover a non-word character. */
  lemma OccurrenceAvoids(s: string, w: string, i: int, q: int)
    requires OccursAt(s, w, i) && IsWord(w)
    requires 0 <= q < |s| && !IsWordChar(s[q])
    ensures q < i || i + |w| <= q
  {
    assert forall j | i <= j < i + |w| :: s[j] == s[i..i + |w|][j - i] == w[j - i];
  }

  /**
   * In fields joined with single spaces and lower-cased, a word made of word
   * characters stands as a whole word only inside one of the lower-cased
   * fields: no match spans two fields.
   */
  lemma {:induction false} WholeWordInJoin(parts: seq<string>, w: string)
    requires IsWord(w)
    ensures HasWholeWord(Lower(Join(parts, " ")), w) ==> exists k | 0 <= k < |parts| :: HasWholeWord(Lower(parts[k]), w)
  {
    if |parts| == 0 {
      assert Lower(Join(parts, " ")) == [];
    } else if |parts| == 1 {
      assert Join(parts, " ") == parts[0];
    } else {
      LowerJoinCons(parts);
      WholeWordAroundSpace(Lower(parts[0]), Lower(Join(parts[1..], " ")), w);
      WholeWordInJoin(parts[1..], w);
      if !HasWholeWord(Lower(parts[0]), w) && HasWholeWord(Lower(Join(parts[1..], " ")), w) {
        var k :| 0 <= k < |parts[1..]| && HasWholeWord(Lower(parts[1..][k]), w);
        assert parts[1..][k] == parts[k + 1];
      }
    }
  }

  lemma LowerJoinCons(parts: seq<string>)
    requires |parts| >= 2
    ensures Lower(Join(parts, " ")) == Lower(parts[0]) + " " + Lower(Join(parts[1..], " "))
  {
    var x, y, sp := parts[0], Join(parts[1..], " "), " ";
    assert Join(parts, sp) == x + sp + y;
    assert Lower(sp) == sp;
    assert Lower(x + sp + y) == Lower(x + sp) + Lower(y) by { LowerConcat(x + sp, y); }
    assert Lower(x + sp) == Lower(x) + sp by { LowerConcat(x, sp); }
  }

  /** A whole word of two pieces joined by a space is a whole word of one of them. */
  lemma WholeWordAroundSpace(a: string, b: string, w: string)
    requires IsWord(w)
    ensures HasWholeWord(a + " " + b, w) ==> HasWholeWord(a, w) || HasWholeWord(b, w)
  {
    var s := a + " " + b;
    if HasWholeWord(s, w) {
      var i :| 0 <= i <= |s| - |w| && OccursAt(s, w, i) && IsBoundary(s, i) && IsBoundary(s, i + |w|);
      WholeWordAtAroundSpace(a, b, w, i);
    }
  }

  lemma WholeWordAtAroundSpace(a: string, b: string, w: string, i: int)
    requires IsWord(w)
    requires OccursAt(a + " " + b, w, i) && IsBoundary(a + " " + b, i) && IsBoundary(a + " " + b, i + |w|)
    ensures HasWholeWord(a, w) || HasWholeWord(b, w)
  {
    var s := a + " " + b;
    assert s[|a|] == ' ';
    OccurrenceAvoids(s, w, i, |a|);
    if i + |w| <= |a| {
      var post := " " + b;
      assert s == [] + a + post;
      WholeWordOutOfContext([], a, post, w, i);
    } else {
      var pre := a + " ";
      assert s == pre + b + [];
      WholeWordOutOfContext(pre, b, [], w, i);
    }
  }

  /** The index of the first whitespace character, or `|s|`. */
  function TokenEnd(s: string): (k: nat)
    ensures k <= |s| && NoSpace(s[..k])
    ensures k < |s| ==> IsSpace(s[k])
  {
    if s == [] || IsSpace(s[0]) then 0 else 1 + TokenEnd(s[1..])
  }

  /**
   * `s.split(/\s+/)`: the pieces between maximal runs of whitespace, with an
   * empty first piece when `s` starts with whitespace and an empty last one
   * when it ends with whitespace; `""` splits into `[""]`.
   */
  function SplitWs(s: string): (r: seq<string>)
    ensures |r| > 0
    ensures forall t | t in r :: NoSpace(t)
    decreases |s|
  {
    var k := TokenEnd(s);
    if k == |s| then [s] else [s[..k]] + SplitWs(TrimStart(s[k..]))
  }

  /** The first whitespace character ends the first token. */
  lemma {:induction false} TokenEndAt(a: string, c: char, b: string)
    requires NoSpace(a) && IsSpace(c)
    ensures TokenEnd(a + [c] + b) == |a|
  {
    if a != [] {
      assert (a + [c] + b)[1..] == a[1..] + [c] + b;
      TokenEndAt(a[1..], c, b);
    }
  }

  /** `split(/\s+/)` past the first token: the token, then the split of what follows the whitespace run. */
  lemma SplitWsUnfold(s: string)
    requires TokenEnd(s) < |s|
    ensures SplitWs(s) == [s[..TokenEnd(s)]] + SplitWs(TrimStart(s[TokenEnd(s)..]))
  {
  }

  /** A token followed by one whitespace character and a non-whitespace character splits off. */
  lemma SplitWsStep(a: string, c: char, b: string)
    requires NoSpace(a) && IsSpace(c) && (b == [] || !IsSpace(b[0]))
    ensures SplitWs(a + [c] + b) == [a] + SplitWs(b)
  {
    TokenEndAt(a, c, b);
    AroundSpace(a, c, b);
    SplitWsAt(a + [c] + b, a, b);
  }

  /** Around one whitespace character: the text before it, and the trimmed text after it. */
  lemma AroundSpace(a: string, c: char, b: string)
    requires IsSpace(c) && (b == [] || !IsSpace(b[0]))
    ensures (a + [c] + b)[..|a|] == a
    ensures TrimStart((a + [c] + b)[|a|..]) == b
  {
    var s := a + [c] + b;
    assert s[..|a|] == a;
    assert TrimStart(s[|a|..]) == b by {
      assert s[|a|..] == [c] + b;
      TrimStartOfSpaces([c], b);
    }
  }

  /** The unfolding of `split(/\s+/)` with its first token and its remainder named. */
  lemma SplitWsAt(s: string, a: string, b: string)
    requires |a| < |s| && TokenEnd(s) == |a| && s[..|a|] == a && TrimStart(s[|a|..]) == b
    ensures SplitWs(s) == [a] + SplitWs(b)
  {
    SplitWsUnfold(s);
  }

  /** Every piece of `split(/\s+/)` is a substring of the text that was split. */
  lemma {:induction false} SplitWsPiecesOccur(s: string, t: string)
    requires t in SplitWs(s)
    ensures Contains(s, t)
    decreases |s|
  {
    var k := TokenEnd(s);
    if k == |s| {
      assert SplitWs(s) == [s];
      assert OccursAt(s, s, 0);
    } else {
      var rest := TrimStart(s[k..]);
      if t == s[..k] {
        assert OccursAt(s, t, 0);
      } else {
        assert t in SplitWs(rest) by {
          SplitWsUnfold(s);
        }
        SplitWsPiecesOccur(rest, t);
        ContainsInSuffix(s, k, rest, t);
      }
    }
  }

  lemma ContainsInSuffix(s: string, k: nat, rest: string, t: string)
    requires k <= |s| && |rest| <= |s| - k && rest == s[k..][|s| - k - |rest|..] && Contains(rest, t)
    ensures Contains(s, t)
  {
    assert rest == s[|s| - |rest|..];
    assert s[..|s| - |rest|] + rest + [] == s;
    ContainsInContext(s[..|s| - |rest|], rest, [], t);
  }

  /** A text without whitespace splits into itself alone. */
  lemma SplitWsOfToken(s: string)
    requires NoSpace(s)
    ensures SplitWs(s) == [s]
  {
  }

  /** The number of occurrences of `c` in `s`. */
  function Count(s: string, c: char): nat {
    if s == [] then 0 else (if s[0] == c then 1 else 0) + Count(s[1..], c)
  }

  /** The index of the first `c` in `s`, or `|s|`. */
  function IndexOfChar(s: string, c: char): (k: nat)
    ensures k <= |s| && c !in s[..k]
    ensures k < |s| ==> s[k] == c
  {
    if s == [] || s[0] == c then 0 else 1 + IndexOfChar(s[1..], c)
  }

  /** `s.split(c)` for a one-character string separator. */
  function SplitOn(s: string, c: char): (r: seq<string>)
    ensures |r| > 0
    ensures forall t | t in r :: c !in t
    decreases |s|
  {
    var k := IndexOfChar(s, c);
    if k == |s| then [s] else [s[..k]] + SplitOn(s[k + 1..], c)
  }

  /** `parts.join(sep)`. */
  function Join(parts: seq<string>, sep: string): string {
    if |parts| == 0 then []
    else if |parts| == 1 then parts[0]
    else parts[0] + sep + Join(parts[1..], sep)
  }

  /** What `join` puts before the part at some index: the earlier parts, each followed by `sep`. */
  function JoinedBefore(parts: seq<string>, sep: string): string {
    if parts == [] then [] else Join(parts, sep) + sep
  }

  /** What `join` puts after the part at some index: the later parts, each preceded by `sep`. */
  function JoinedAfter(parts: seq<string>, sep: string): string {
    if parts == [] then [] else sep + Join(parts, sep)
  }

  /** Each part of a joined text sits between separators (or an end of the text). */
  lemma {:induction false} JoinAround(parts: seq<string>, sep: string, k: nat)
    requires k < |parts|
    ensures Join(parts, sep) == JoinedBefore(parts[..k], sep) + parts[k] + JoinedAfter(parts[k + 1..], sep)
  {
    if k == 0 {
      assert parts[..0] == [];
      if |parts| > 1 {
        assert parts[1..] != [];
      }
    } else {
      var tail := parts[1..];
      JoinAround(tail, sep, k - 1);
      assert tail[k..] == parts[k + 1..];
      assert tail[k - 1] == parts[k];
      var before, after := JoinedBefore(tail[..k - 1], sep), JoinedAfter(parts[k + 1..], sep);
      assert Join(tail, sep) == before + parts[k] + after;
      JoinedBeforeCons(parts, sep, k);
      assert Join(parts, sep) == parts[0] + sep + Join(tail, sep);
      SeqAssoc(parts[0] + sep, before, parts[k], after);
    }
  }

  lemma JoinedBeforeCons(parts: seq<string>, sep: string, k: nat)
    requires 1 <= k <= |parts|
    ensures JoinedBefore(parts[..k], sep) == parts[0] + sep + JoinedBefore(parts[1..][..k - 1], sep)
  {
    var tail := parts[1..];
    if k == 1 {
      assert tail[..0] == [];
      assert parts[..1] == [parts[0]];
    } else {
      assert parts[..k][1..] == tail[..k - 1];
      assert Join(parts[..k], sep) == parts[0] + sep + Join(tail[..k - 1], sep);
    }
  }

  /** Two tokens separated by a single space split apart. */
  lemma SplitWsTwoTokens(a: string, b: string)
    requires NoSpace(a) && NoSpace(b) && b != []
    ensures SplitWs(a + " " + b) == [a, b]
  {
    assert a + " " + b == a + [' '] + b;
    SplitWsStep(a, ' ', b);
    SplitWsOfToken(b);
  }

  /** Lower-casing a text without capitals changes nothing. */
  lemma LowerOfLowercase(s: string)
    requires forall i | 0 <= i < |s| :: !('A' <= s[i] <= 'Z')
    ensures Lower(s) == s
  {
  }

  /** Lower-casing twice is lower-casing once. */
  lemma LowerIdempotent(s: string)
    ensures Lower(Lower(s)) == Lower(s)
  {
    LowerOfLowercase(Lower(s));
  }

  lemma SeqAssoc(a: string, b: string, c: string, d: string)
    ensures a + (b + c + d) == (a + b) + c + d
  {
  }

  lemma {:induction false} CountSplit(s: string, k: nat, c: char)
    requires k <= |s| && c !in s[..k]
    ensures Count(s, c) == Count(s[k..], c)
  {
    if k > 0 {
      assert s[0] == s[..k][0];
      assert s[1..][..k - 1] == s[..k][1..];
      CountSplit(s[1..], k - 1, c);
      assert s[1..][k - 1..] == s[k..];
    }
  }

  /** `s.split(c)` has one piece more than `s` has separators. */
  lemma {:induction false} SplitOnLength(s: string, c: char)
    ensures |SplitOn(s, c)| == Count(s, c) + 1
    decreases |s|
  {
    var k := IndexOfChar(s, c);
    CountSplit(s, k, c);
    if k < |s| {
      SplitOnLength(s[k + 1..], c);
      assert s[k..][1..] == s[k + 1..];
    }
  }

  /** Joining the pieces of `s.split(c)` with `c` gives back `s`. */
  lemma {:induction false} SplitOnJoin(s: string, c: char)
    ensures Join(SplitOn(s, c), [c]) == s
    decreases |s|
  {
    var k := IndexOfChar(s, c);
    if k < |s| {
      SplitOnJoin(s[k + 1..], c);
      var rest := SplitOn(s[k + 1..], c);
      assert SplitOn(s, c) == [s[..k]] + rest;
      assert ([s[..k]] + rest)[1..] == rest;
      assert s == s[..k] + [c] + s[k + 1..];
    }
  }

  /**
   * `s.indexOf(w, from)`: the first occurrence of `w` at or after `from`,
   * or `None` when there is none.
   */
  function IndexOfFrom(s: string, w: string, from: nat): (r: Option<nat>)
    ensures r.Some? ==> from <= r.value && OccursAt(s, w, r.value)
                        && forall j | from <= j < r.value :: !OccursAt(s, w, j)
    ensures r.None? ==> forall j | from <= j :: !OccursAt(s, w, j)
    decreases |s| - from
  {
    if from + |w| > |s| then None
    else if OccursAt(s, w, from) then Some(from)
    else IndexOfFrom(s, w, from + 1)
  }
}
