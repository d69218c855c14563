/** The query template resolver of the console (index.mjs line 33): the
    query text is prefixed with a sentinel space, the first `${DATA}` not
    preceded by `$` is replaced by the data-source field, the sentinel is
    dropped, and the first `$$` is collapsed to `$`. */
module QueryTemplate {
  import opened Substitution

  datatype Option<T> = None | Some(value: T)

  /** The placeholder the data source is substituted for. */
  const Placeholder: string := "${DATA}"

  /** The character prefixed to the query so that a placeholder at its very
      start still has a character in front of it. */
  const Sentinel: char := ' '

  // ---------------------------------------------------------------------
  // What the query text means: placeholders, escapes and doubled dollars
  // ---------------------------------------------------------------------

  ghost predicate PlaceholderAt(q: string, j: int)
    ensures PlaceholderAt(q, j) ==> 0 <= j < |q| && q[j] == '$'
  {
    0 <= j && j + 7 <= |q| && q[j..j + 7] == Placeholder
  }

  /** A placeholder that is not escaped by a `$` right before it. */
  ghost predicate UnescapedAt(q: string, j: int) {
    PlaceholderAt(q, j) && (j == 0 || q[j - 1] != '$')
  }

  ghost predicate FirstUnescapedAt(q: string, j: int) {
    UnescapedAt(q, j) && forall k :: 0 <= k < j ==> !UnescapedAt(q, k)
  }

  ghost predicate PairAt(s: string, k: int) {
    0 <= k && k + 1 < |s| && s[k] == '$' && s[k + 1] == '$'
  }

  ghost predicate FirstPairAt(s: string, k: int) {
    PairAt(s, k) && forall m :: 0 <= m < k ==> !PairAt(s, m)
  }

  // ---------------------------------------------------------------------
  // The operations of line 33
  // ---------------------------------------------------------------------

  /** The regular expression `/([^$])\${DATA}/` matches at `i`: a character
      other than `$` followed by the placeholder. */
  predicate GuardedMatchAt(s: string, i: int) {
    0 <= i && i + 8 <= |s| && s[i] != '$' && s[i + 1..i + 8] == Placeholder
  }

  /** The leftmost match of `/([^$])\${DATA}/` at or after `from`. */
  function FindGuarded(s: string, from: nat): (r: Option<nat>)
    ensures r.Some? ==> from <= r.value && GuardedMatchAt(s, r.value)
    ensures forall k :: from <= k && (r.None? || k < r.value) ==> !GuardedMatchAt(s, k)
    decreases |s| - from
  {
    if |s| < from + 8 then None
    else if GuardedMatchAt(s, from) then Some(from)
    else FindGuarded(s, from + 1)
  }

  /** `s.replace(/([^$])\${DATA}/, '$1' + source)`: the first match is
      replaced by the expansion of the template `$1` + `source`, where the
      single capture is the character before the placeholder. Text without
      a match is unchanged; the first character survives whatever the data
      source holds; and for a data source without `$` the template adds
      nothing to a verbatim insertion. */
  function ReplaceGuarded(s: string, source: string): (r: string)
    ensures (forall i :: !GuardedMatchAt(s, i)) ==> r == s
    ensures |s| > 0 ==> |r| > 0 && r[0] == s[0]
    ensures '$' !in source ==> r == ReplaceGuardedLiteral(s, source)
  {
    match FindGuarded(s, 0)
    case None => s
    case Some(i) =>
      GuardedReplacement(s, source, i);
      s[..i] + Expand("$1" + source, s, i, s[i..i + 8], [[s[i]]]) + s[i + 8..]
  }

  /** The replacement of one match at `i`: the expansion starts with the
      captured character, so the text before the match and that character
      are kept; with no `$` in the data source the expansion is the captured
      character followed by the data source. */
  lemma GuardedReplacement(s: string, source: string, i: nat)
    requires i + 8 <= |s|
    ensures var e := Expand("$1" + source, s, i, s[i..i + 8], [[s[i]]]);
            s[..i] + e + s[i + 8..] == s[..i + 1] + Expand(source, s, i, s[i..i + 8], [[s[i]]]) + s[i + 8..]
    ensures '$' !in source ==>
              s[..i] + Expand("$1" + source, s, i, s[i..i + 8], [[s[i]]]) + s[i + 8..] == s[..i + 1] + source + s[i + 8..]
  {
    ExpandFirstCapture(source, s, i, s[i..i + 8], [s[i]]);
    assert s[..i] + [s[i]] == s[..i + 1];
  }

  /** `s.substring(1)`: everything after the first character, and the empty
      string for the empty string. */
  function DropFirst(s: string): (r: string)
    ensures s != [] ==> [s[0]] + r == s
    ensures s == [] ==> r == []
  {
    if s == [] then s else s[1..]
  }

  /** The leftmost match of `/\$\$/` at or after `from`. */
  function FindPair(s: string, from: nat): (r: Option<nat>)
    ensures r.Some? ==> from <= r.value && PairAt(s, r.value)
    ensures forall k :: from <= k && (r.None? || k < r.value) ==> !PairAt(s, k)
    decreases |s| - from
  {
    if |s| < from + 2 then None
    else if s[from] == '$' && s[from + 1] == '$' then Some(from)
    else FindPair(s, from + 1)
  }

  /** `s.replace(/\$\$/, '$$')`: the replacement template `$$` stands for a
      single `$`, so the first doubled dollar loses one `$` and nothing else
      changes. */
  function CollapseFirstPair(s: string): (r: string)
    ensures (forall k :: !PairAt(s, k)) ==> r == s
    ensures forall k :: FirstPairAt(s, k) ==> r == s[..k] + "$" + s[k + 2..]
  {
    match FindPair(s, 0)
    case None => s
    case Some(k) =>
      ExpandDoubleDollar(s, k, s[k..k + 2], []);
      s[..k] + Expand("$$", s, k, s[k..k + 2], []) + s[k + 2..]
  }

  /** The query sent to the engine, as line 33 computes it. A query without
      an unescaped placeholder is only collapsed, whatever the data source;
      for a data source without `$` the result is that of verbatim
      substitution, which `ResolveLiteral` describes. */
  function Resolve(query: string, source: string): (r: string)
    ensures (forall j :: !UnescapedAt(query, j)) ==> r == CollapseFirstPair(query)
    ensures '$' !in source ==> r == ResolveLiteral(query, source)
  {
    SentinelSubstitution(query, source);
    CollapseFirstPair(DropFirst(ReplaceGuarded([Sentinel] + query, source)))
  }

  /** The substitution with the data source inserted verbatim, as a
      replacement function `(m, c) => c + source` would do it. */
  function ReplaceGuardedLiteral(s: string, source: string): (r: string)
    ensures (forall i :: !GuardedMatchAt(s, i)) ==> r == s
    ensures |s| > 0 ==> |r| > 0 && r[0] == s[0]
  {
    match FindGuarded(s, 0)
    case None => s
    case Some(i) => s[..i + 1] + source + s[i + 8..]
  }

  /** Line 33 with the data source inserted verbatim instead of being read
      as a replacement template: the first unescaped placeholder of the
      query is replaced by the data source, the rest of the query (later
      placeholders included) is kept, and then the first `$$` of the result
      is collapsed. */
  function ResolveLiteral(query: string, source: string): (r: string)
    ensures forall j :: FirstUnescapedAt(query, j) ==>
              r == CollapseFirstPair(query[..j] + source + query[j + 7..])
    ensures (forall j :: !UnescapedAt(query, j)) ==> r == CollapseFirstPair(query)
  {
    SentinelSubstitution(query, source);
    CollapseFirstPair(DropFirst(ReplaceGuardedLiteral([Sentinel] + query, source)))
  }

  // ---------------------------------------------------------------------
  // The sentinel
  // ---------------------------------------------------------------------

  /** The regular expression matches the sentinel-prefixed query at `i`
      exactly when the query has an unescaped placeholder at `i`: the
      sentinel supplies the `[^$]` character for a placeholder at 0. */
  lemma GuardedIffUnescaped(q: string, i: int)
    ensures GuardedMatchAt([Sentinel] + q, i) <==> UnescapedAt(q, i)
  {
    var s0 := [Sentinel] + q;
    if 0 <= i && i + 7 <= |q| {
      assert s0[i + 1..i + 8] == q[i..i + 7];
      assert i > 0 ==> s0[i] == q[i - 1];
    }
  }

  /** The search over the sentinel-prefixed query finds the first unescaped
      placeholder of the query, and nothing when there is none. */
  lemma {:induction false} FindGuardedFirstUnescaped(q: string)
    ensures forall j :: FirstUnescapedAt(q, j) ==> FindGuarded([Sentinel] + q, 0) == Some(j)
    ensures (forall j :: !UnescapedAt(q, j)) ==> FindGuarded([Sentinel] + q, 0) == None
  {
    var s0 := [Sentinel] + q;
    var f := FindGuarded(s0, 0);
    if f.Some? {
      GuardedIffUnescaped(q, f.value);
      forall k | 0 <= k < f.value ensures !UnescapedAt(q, k) {
        GuardedIffUnescaped(q, k);
      }
    } else {
      forall k | 0 <= k ensures !UnescapedAt(q, k) {
        GuardedIffUnescaped(q, k);
      }
    }
  }

  /** What the substitution and `substring(1)` do to the sentinel-prefixed
      query: the first unescaped placeholder is replaced by the data source,
      and without one the query comes back as it was. */
  lemma SentinelSubstitution(q: string, source: string)
    ensures forall j :: FirstUnescapedAt(q, j) ==>
              DropFirst(ReplaceGuardedLiteral([Sentinel] + q, source)) == q[..j] + source + q[j + 7..]
    ensures (forall j :: !UnescapedAt(q, j)) ==>
              DropFirst(ReplaceGuarded([Sentinel] + q, source)) == q
              && DropFirst(ReplaceGuardedLiteral([Sentinel] + q, source)) == q
  {
    FindGuardedFirstUnescaped(q);
    forall j | FirstUnescapedAt(q, j)
      ensures DropFirst(ReplaceGuardedLiteral([Sentinel] + q, source)) == q[..j] + source + q[j + 7..]
    {
      SentinelSubstitutionAt([Sentinel] + q, q, source, j);
    }
    if forall j :: !UnescapedAt(q, j) {
      DropSentinel(q);
    }
  }

  /** The substitution step of `SentinelSubstitution` at one match. */
  lemma SentinelSubstitutionAt(s0: string, q: string, source: string, j: nat)
    requires s0 == [Sentinel] + q
    requires j + 7 <= |q|
    requires FindGuarded(s0, 0) == Some(j)
    ensures DropFirst(ReplaceGuardedLiteral(s0, source)) == q[..j] + source + q[j + 7..]
  {
    LiteralReplacementAt(s0, source, j);
    assert s0[..j + 1] == [Sentinel] + q[..j] && s0[j + 8..] == q[j + 7..];
    Reassociate(Sentinel, q[..j], source, q[j + 7..]);
    DropSentinel(q[..j] + source + q[j + 7..]);
  }

  /** Regrouping a concatenation after a leading character. */
  lemma Reassociate(c: char, a: string, m: string, b: string)
    ensures [c] + a + m + b == [c] + (a + m + b)
  {
  }

  /** Verbatim substitution at the match the search returns. */
  lemma LiteralReplacementAt(s: string, source: string, i: nat)
    requires FindGuarded(s, 0) == Some(i)
    ensures i + 8 <= |s|
    ensures ReplaceGuardedLiteral(s, source) == s[..i + 1] + source + s[i + 8..]
  {
  }

  /** `substring(1)` removes exactly a prefixed sentinel. */
  lemma DropSentinel(q: string)
    ensures DropFirst([Sentinel] + q) == q
  {
  }

  // ---------------------------------------------------------------------
  // What the resolver does
  // ---------------------------------------------------------------------

  /** For a data source without `$`, the first unescaped placeholder is
      replaced by the data source before the collapse. */
  lemma ResolveAt(q: string, source: string, j: int)
    requires '$' !in source
    requires FirstUnescapedAt(q, j)
    ensures Resolve(q, source) == CollapseFirstPair(q[..j] + source + q[j + 7..])
  {
    assert Resolve(q, source) == ResolveLiteral(q, source);
  }

  /** A query with no placeholder and no `$$` is sent unchanged, whatever
      the data source. */
  lemma ResolveIdentity(q: string, source: string)
    requires forall j :: !PlaceholderAt(q, j)
    requires forall k :: !PairAt(q, k)
    ensures Resolve(q, source) == q
  {
    assert CollapseFirstPair(q) == q;
  }
}
