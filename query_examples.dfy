/** The resolver on the query shapes a user writes: a plain query, a query
    that reads from `${DATA}`, a placeholder at the very start, two
    placeholders, escaped placeholders and doubled dollars.

    Some lemmas take a fixed query or data source as a parameter pinned by
    `requires q == ...` rather than writing the literal in the `ensures`:
    with every argument a literal, the verifier unfolds the recursive
    searches and the template expansion on that literal, which costs far
    more than the proof through the general lemmas. */
module QueryTemplateExamples {
  import opened QueryTemplate
  import opened Substitution

  /** Text without `$` holds neither a placeholder nor a doubled dollar. */
  lemma DollarFreeText(s: string)
    requires '$' !in s
    ensures forall j :: !PlaceholderAt(s, j)
    ensures forall k :: !PairAt(s, k)
  {
  }

  /** The only `$` of `a + t` is at `|a| + 1`, so it has no doubled dollar. */
  lemma NoPairAfterDollarFree(a: string, t: string)
    requires '$' !in a
    requires |t| >= 3 && '$' !in t[..1] && t[1] == '$' && '$' !in t[2..]
    ensures forall k :: !PairAt(a + t, k)
  {
  }

  /** A query without any `$` is sent unchanged. */
  lemma PlainQueryUnchanged(q: string, source: string)
    requires '$' !in q
    ensures Resolve(q, source) == q
  {
    DollarFreeText(q);
    ResolveIdentity(q, source);
  }

  /** No placeholder starts inside a stretch of text without `$`. */
  lemma NoPlaceholderIn(q: string, lo: nat, hi: nat)
    requires lo <= hi <= |q|
    requires '$' !in q[lo..hi]
    ensures forall k :: lo <= k < hi ==> !PlaceholderAt(q, k)
  {
    forall k | lo <= k < hi ensures q[k] != '$' {
      assert q[k] == q[lo..hi][k - lo];
    }
  }

  /** The usual shape: the data source replaces the placeholder. */
  lemma SelectFromSource(source: string)
    requires '$' !in source
    ensures Resolve("select * from ${DATA}", source) == "select * from " + source
  {
    var head := "select * from ";
    var q := head + Placeholder;
    assert q == "select * from ${DATA}";
    assert q[..14] == head && q[14..21] == Placeholder && q[13] == ' ';
    NoPlaceholderIn(q, 0, 14);
    assert FirstUnescapedAt(q, 14);
    ResolveAt(q, source, 14);
    assert q[..14] + source + q[21..] == head + source;
    DollarFreeText(head + source);
  }

  /** A placeholder at the very start is substituted, and the sentinel does
      not show in the result. */
  lemma PlaceholderAtStart(source: string)
    requires '$' !in source
    ensures Resolve("${DATA}", source) == source
  {
    var q := Placeholder;
    assert FirstUnescapedAt(q, 0);
    ResolveAt(q, source, 0);
    assert q[..0] + source + q[7..] == source;
    DollarFreeText(source);
  }

  /** A query cut around its first unescaped placeholder: the data source
      takes the placeholder's place. */
  lemma ResolveAround(head: string, rest: string, source: string)
    requires '$' !in source
    requires head == [] || head[|head| - 1] != '$'
    requires forall k :: 0 <= k < |head| ==> !UnescapedAt(head + Placeholder + rest, k)
    ensures Resolve(head + Placeholder + rest, source) == CollapseFirstPair(head + source + rest)
  {
    var q := head + Placeholder + rest;
    var j := |head|;
    assert q[..j] == head && q[j..j + 7] == Placeholder && q[j + 7..] == rest;
    assert FirstUnescapedAt(q, j);
    ResolveAt(q, source, j);
  }

  /** In a query with two placeholders the first takes the data source. */
  lemma SubstituteFirstOfTwo(source: string)
    requires '$' !in source
    ensures Resolve("${DATA} ${DATA}", source) == CollapseFirstPair(source + " ${DATA}")
  {
    var t := " " + Placeholder;
    calc {
      Resolve("${DATA} ${DATA}", source);
      { assert "${DATA} ${DATA}" == [] + Placeholder + t; }
      Resolve([] + Placeholder + t, source);
      { ResolveAround([], t, source); }
      CollapseFirstPair([] + source + t);
      { assert [] + source + t == source + " ${DATA}"; }
      CollapseFirstPair(source + " ${DATA}");
    }
  }

  /** A lone `$` left by the second placeholder is not collapsed. */
  lemma CollapseKeepsSecondPlaceholder(source: string)
    requires '$' !in source
    ensures CollapseFirstPair(source + " ${DATA}") == source + " ${DATA}"
  {
    var t := " " + Placeholder;
    assert t[..1] == " " && t[1] == '$' && t[2..] == "{DATA}";
    NoPairAfterDollarFree(source, t);
  }

  /** Only the first placeholder is replaced. */
  lemma FirstPlaceholderOnly(source: string)
    requires '$' !in source
    ensures Resolve("${DATA} ${DATA}", source) == source + " ${DATA}"
  {
    SubstituteFirstOfTwo(source);
    CollapseKeepsSecondPlaceholder(source);
  }

  /** `$${DATA}` holds no unescaped placeholder. */
  lemma NoUnescapedInEscaped(q: string)
    requires q == "$" + Placeholder
    ensures forall j :: !UnescapedAt(q, j)
  {
    assert !UnescapedAt(q, 0) by {
      assert q[1] == '$';
    }
    NoPlaceholderIn(q, 2, |q|);
  }

  /** An escaped placeholder leaves the data source unused. */
  lemma EscapedPlaceholderNotSubstituted(source: string)
    ensures Resolve("$${DATA}", source) == CollapseFirstPair("$${DATA}")
  {
    NoUnescapedInEscaped("$${DATA}");
  }

  /** The escape is the first `$$` and is collapsed. */
  lemma CollapseEscapedPlaceholder()
    ensures CollapseFirstPair("$${DATA}") == "${DATA}"
  {
    var q := "$${DATA}";
    assert FirstPairAt(q, 0);
    assert q[2..] == "{DATA}";
  }

  /** An escaped placeholder is never substituted, whatever the data
      source; the collapse then turns `$${DATA}` into a literal `${DATA}`. */
  lemma EscapedPlaceholder(source: string)
    ensures Resolve("$${DATA}", source) == "${DATA}"
  {
    EscapedPlaceholderNotSubstituted(source);
    CollapseEscapedPlaceholder();
  }

  /** In `$${DATA} ${DATA}` no unescaped placeholder comes before the
      second one. */
  lemma EscapedHeadSkipped(head: string, q: string)
    requires head == "$" + Placeholder + " " && q == head + Placeholder + []
    ensures forall k :: 0 <= k < |head| ==> !UnescapedAt(q, k)
  {
    assert !UnescapedAt(q, 0) by {
      assert q[1] == '$';
    }
    assert q[2..9] == "{DATA} ";
    NoPlaceholderIn(q, 2, 9);
  }

  /** The escaped placeholder is passed over and the next one takes the
      data source. */
  lemma SubstituteAfterEscaped(source: string)
    requires '$' !in source
    ensures Resolve("$${DATA} ${DATA}", source) == CollapseFirstPair("$${DATA} " + source)
  {
    var head := "$" + Placeholder + " ";
    var q := head + Placeholder + [];
    EscapedHeadSkipped(head, q);
    calc {
      Resolve("$${DATA} ${DATA}", source);
      { assert "$${DATA} ${DATA}" == q; }
      Resolve(q, source);
      { ResolveAround(head, [], source); }
      CollapseFirstPair(head + source + []);
      { assert head + source + [] == "$${DATA} " + source; }
      CollapseFirstPair("$${DATA} " + source);
    }
  }

  /** The escape in front of the placeholder is the first `$$`. */
  lemma CollapseEscape(source: string)
    ensures CollapseFirstPair("$${DATA} " + source) == "${DATA} " + source
  {
    var s := "$${DATA} " + source;
    assert FirstPairAt(s, 0);
    assert s[2..] == "{DATA} " + source;
  }

  /** An escaped placeholder is skipped and the next one is substituted;
      the collapse comes after the substitution. */
  lemma EscapedThenSubstituted(source: string)
    requires '$' !in source
    ensures Resolve("$${DATA} ${DATA}", source) == "${DATA} " + source
  {
    SubstituteAfterEscaped(source);
    CollapseEscape(source);
  }

  /** Only the first `$$` is collapsed. */
  lemma FirstPairOnly(source: string)
    ensures Resolve("$$$$", source) == "$$$"
  {
    var q := "$$$$";
    forall j | PlaceholderAt(q, j) ensures false {
    }
    assert FirstPairAt(q, 0);
  }

  /** With verbatim substitution, `$&` is inserted as it is. */
  lemma LiteralSourceKept(q: string, source: string)
    requires q == Placeholder && source == "$&"
    ensures ResolveLiteral(q, source) == source
  {
    assert FirstUnescapedAt(q, 0);
    assert q[..0] + source + q[7..] == source;
    assert !PairAt(source, 0);
  }

  /** The template `$1$&` expands to the capture (the sentinel) followed
      by the matched text (the sentinel and the placeholder). */
  lemma EchoReplacement(s0: string, source: string)
    requires s0 == [Sentinel] + Placeholder && source == "$&"
    ensures ReplaceGuarded(s0, source) == [Sentinel] + s0
  {
    assert FindGuarded(s0, 0) == Some(0) by {
      assert GuardedMatchAt(s0, 0) by {
        assert s0[1..8] == Placeholder;
      }
    }
    var m := s0[0..8];
    assert m == s0;
    calc {
      Expand("$1" + source, s0, 0, m, [[s0[0]]]);
      { ExpandFirstCapture(source, s0, 0, m, [s0[0]]); }
      [s0[0]] + Expand(source, s0, 0, m, [[s0[0]]]);
      { assert source[0] == '$' && source[1] == '&' && source[2..] == []; }
      [Sentinel] + s0;
    }
  }

  /** The sentinel-prefixed placeholder has a single `$`. */
  lemma EchoCollapse(s0: string)
    requires s0 == [Sentinel] + Placeholder
    ensures CollapseFirstPair(s0) == s0
  {
    assert s0[..1] == [Sentinel] && s0[1] == '$' && s0[2..] == "{DATA}";
    NoPairAfterDollarFree([], s0);
    assert [] + s0 == s0;
  }

  /** The page expands `$&` in the data source to the matched text, which is
      the sentinel followed by the placeholder. */
  lemma TemplateSourceExpanded(q: string, source: string)
    requires q == Placeholder && source == "$&"
    ensures Resolve(q, source) == [Sentinel] + q
  {
    var s0 := [Sentinel] + q;
    EchoReplacement(s0, source);
    assert DropFirst([Sentinel] + s0) == s0;
    EchoCollapse(s0);
  }

  /** The data source is read as a replacement template: `$&` in the data
      source stands for the matched text (sentinel and placeholder), so the
      query `${DATA}` comes back as ` ${DATA}` instead of the data source,
      while verbatim substitution gives the data source `$&`. */
  lemma SourceReadAsTemplate(q: string, source: string)
    requires q == Placeholder && source == "$&"
    ensures Resolve(q, source) == " ${DATA}"
    ensures ResolveLiteral(q, source) == "$&"
  {
    TemplateSourceExpanded(q, source);
    LiteralSourceKept(q, source);
    SentinelPlaceholder();
  }

  lemma SentinelPlaceholder()
    ensures [Sentinel] + Placeholder == " ${DATA}"
  {
  }
}
