# duckshow query console: query template resolver and result table

duckshow is a single-page SQL console. A form holds a data-source field and
a query field. On submit, the page turns the query text into the statement
it sends to an in-page DuckDB engine, then renders the result as an HTML
table. This project models the two pieces of that page that are plain logic:

- **The query template resolver** (`index.mjs` line 33). The query is
  prefixed with a sentinel space. Then
  `replace(/([^$])\${DATA}/, '$1' + source)` substitutes the data source for
  the first `${DATA}` that has no `$` in front of it. `substring(1)` drops the
  sentinel, and `replace(/\$\$/, '$$')` collapses the first `$$` to `$`. Both
  `replace` calls are modelled with the expansion of the replacement template
  that ECMA-262 specifies for `String.prototype.replace` (the GetSubstitution
  operation). So the model also says what happens when the data source itself
  contains `$` (see Findings).
- **The result table** built in `queryDB` (`index.mjs` lines 45-64). It is a
  header row with one `th` cell per schema field, then one row of `td` cells
  per result row, one cell per entry. The DOM is abstracted to a sequence of
  rows of cells.

Files:

- `substitution.dfy`, module `Substitution`: the replacement-template
  expansion (`Expand`) and its laws.
- `query_template.dfy`, module `QueryTemplate`: the two regular-expression
  searches as recursive leftmost searches (`FindGuarded`, `FindPair`). Also
  the two replacements, `substring(1)`, the resolver `Resolve`, and the
  verbatim-substitution variant `ResolveLiteral`. Reference predicates say
  what the query text means: an unescaped placeholder, the first one, a
  doubled dollar. Lemmas tie `Resolve` to those predicates.
- `query_examples.dfy`, module `QueryTemplateExamples`: the resolver on
  concrete query shapes, stated as exact equations.
- `result_table.dfy`, module `ResultTable`: `Tabulate` is the table as a
  function of the schema and the rows. `BuildTable` is the source's nested
  loops, proved to build exactly that table.

Two points of the page's behaviour are easy to misread:

- A query without a placeholder is not always sent unchanged. Its first `$$`
  is still collapsed. `ResolveIdentity` and `PlainQueryUnchanged` therefore
  also require that there is no `$$`, and `FirstPairOnly` shows the collapse.
- Only the first unescaped placeholder and only the first `$$` are replaced.

The connection is closed only on the success path, because `conn.close()`
sits inside `try`. Connections are not part of this model.

## Model

| member | source | states |
|---|---|---|
| `Substitution.Expand` | index.mjs:33 | The expansion `replace` applies to a replacement template. A template without `$` expands to itself. |
| `Substitution.ExpandFirstCapture` | index.mjs:33 | With one capture group, `$1` followed by any text expands to the capture and then the expansion of that text. A digit right after `$1` stays literal, because `$1d` names a group numbered ten or more, which does not exist. |
| `Substitution.ExpandDoubleDollar` | index.mjs:33 | The template `$$` of the second `replace` stands for a single `$`, whatever the match. |
| `QueryTemplate.FindGuarded` | index.mjs:33 | The search for `/([^$])\${DATA}/` returns a match position. No position before it matches. `None` means no position matches at all. |
| `QueryTemplate.ReplaceGuarded` | index.mjs:33 | The first `replace`. Text with no match of `/([^$])\${DATA}/` is unchanged. The first character is kept whatever the data source holds, so `substring(1)` removes exactly the sentinel. For a data source without `$`, the result equals verbatim substitution (`ReplaceGuardedLiteral`). |
| `QueryTemplate.GuardedReplacement` | index.mjs:33 | At a match, the template `$1` + data source gives back the captured character and then the expansion of the data source. The text before the match is kept. For a data source without `$`, the data source follows the captured character verbatim. |
| `QueryTemplate.DropFirst` | index.mjs:33 | `substring(1)`: the first character followed by the result gives back the text. Empty text stays empty. |
| `QueryTemplate.FindPair` | index.mjs:33 | The search for `/\$\$/` returns the leftmost `$$`, or `None` when the text has none. |
| `QueryTemplate.CollapseFirstPair` | index.mjs:33 | The second `replace` removes one `$` from the first `$$` and changes nothing else. Text without `$$` is unchanged. |
| `QueryTemplate.GuardedIffUnescaped` | index.mjs:33 | The regular expression matches the sentinel-prefixed query at `i` exactly when the query has a `${DATA}` at `i` with no `$` before it. The sentinel makes a placeholder at position 0 match. |
| `QueryTemplate.FindGuardedFirstUnescaped` | index.mjs:33 | On the sentinel-prefixed query, the search finds the query's first unescaped placeholder, and nothing when there is none. |
| `QueryTemplate.SentinelSubstitution` | index.mjs:33 | After the first `replace` and `substring(1)`, the first unescaped placeholder of the query is replaced by the data source (verbatim substitution). A query with no unescaped placeholder comes back unchanged, for the page's substitution as well. |
| `QueryTemplate.SentinelSubstitutionAt` | index.mjs:33 | Verbatim substitution at the match the search returns, seen through the sentinel and `substring(1)`: the text before the placeholder, the data source, then the text after it. |
| `QueryTemplate.Resolve` | index.mjs:33 | The whole of line 33. A query without an unescaped placeholder only has its first `$$` collapsed, even when the data source contains `$`. For a data source without `$`, the result equals `ResolveLiteral`. `ResolveAt` and `ResolveIdentity` state the resulting equations. |
| `QueryTemplate.ReplaceGuardedLiteral` | index.mjs:33 | The first `replace` with the data source inserted verbatim. Text with no match is unchanged, and the first character is kept. |
| `QueryTemplate.ResolveLiteral` | index.mjs:33 | Line 33 with verbatim substitution. The first unescaped placeholder at `j` is replaced by the data source, whatever it contains. The text before and after it, later placeholders included, is kept, and then the first `$$` is collapsed. A query without an unescaped placeholder is only collapsed. |
| `QueryTemplate.ResolveAt` | index.mjs:33 | For a data source without `$`, the result is the query with its first unescaped placeholder replaced by the data source, and then the first `$$` collapsed. |
| `QueryTemplate.ResolveIdentity` | index.mjs:33 | A query with no `${DATA}` and no `$$` is sent unchanged, for every data source. |
| `QueryTemplateExamples.PlainQueryUnchanged` | index.mjs:33 | A query without `$` is sent unchanged. |
| `QueryTemplateExamples.ResolveAround` | index.mjs:33 | Split a query as `head + ${DATA} + rest`, where `head` has no unescaped placeholder and does not end in `$`. A data source without `$` then yields the collapse of `head + source + rest`. |
| `QueryTemplateExamples.SelectFromSource` | index.mjs:33 | `Resolve("select * from ${DATA}", src) == "select * from " + src` for a data source without `$`. |
| `QueryTemplateExamples.PlaceholderAtStart` | index.mjs:33 | `Resolve("${DATA}", src) == src` for a data source without `$`. The placeholder at position 0 is substituted and the sentinel does not show. |
| `QueryTemplateExamples.FirstPlaceholderOnly` | index.mjs:33 | `Resolve("${DATA} ${DATA}", src) == src + " ${DATA}"` for a data source without `$`. |
| `QueryTemplateExamples.EscapedPlaceholder` | index.mjs:33 | `Resolve("$${DATA}", src) == "${DATA}"` for every data source. The escape stops substitution, and the collapse then leaves a literal placeholder. |
| `QueryTemplateExamples.EscapedThenSubstituted` | index.mjs:33 | `Resolve("$${DATA} ${DATA}", src) == "${DATA} " + src` for a data source without `$`. The escaped placeholder is skipped, the next one is substituted, and the collapse comes after. |
| `QueryTemplateExamples.FirstPairOnly` | index.mjs:33 | `Resolve("$$$$", src) == "$$$"` for every data source. Only the first `$$` is collapsed. |
| `QueryTemplateExamples.SourceReadAsTemplate` | index.mjs:33 | For the query `${DATA}` and the data source `$&`, `Resolve` gives `" ${DATA}"`, while verbatim substitution gives `"$&"`. |
| `ResultTable.HeaderRow` | index.mjs:47-53 | The header row has one cell per schema field, holding the field names in schema order. |
| `ResultTable.DataRow` | index.mjs:57-63 | A body row has one cell per entry of the result row, holding the entry values in order. |
| `ResultTable.DataRows` | index.mjs:56-64 | One body row per result row, in iteration order. |
| `ResultTable.Tabulate` | index.mjs:47-64 | The table has one row more than the result. Row 0 holds the field names as header cells. Row `k + 1` holds the values of result row `k` as data cells, one per entry, in order. |
| `ResultTable.EmptyResultHeaderOnly` | index.mjs:47-56 | An empty result gives the header row and no body rows. |
| `ResultTable.HeaderAndBodyCells` | index.mjs:47-64 | Only the header row holds `th` cells, and only the body rows hold `td` cells. |
| `ResultTable.BuildTable` | index.mjs:45-64 | The nested loops build exactly `Tabulate(fields, rows)`. |

## Left out

- DuckDB bootstrap (`index.mjs` lines 3-24): bundle selection, the worker, instantiation. This is a foreign library and I/O. Its only observable result is a database or `null`.
- Form event wiring and the promise chain (lines 26-38): DOM events and asynchronous scheduling. The form's two field values are the parameters of `Resolve`. Overlapping submits are not modelled.
- `db.connect`, `conn.query`, `conn.close` (lines 42-43, 65): the external engine. A result is modelled as its field names and its rows of already-stringified `[column, value]` entries. How `innerText` converts an Arrow value to text is not modelled.
- Replacing the contents of `#viz` with the table or with the `Error: …` panel (lines 67-76), and the console logging (line 55): DOM and diagnostics output.
- Time-resolution classification, timestamp formatting and charting: this version of the page has no such code.
- `Substitution.Expand`: models only the case that occurs on line 33. The regular expressions have no named groups, and every capture group takes part in the match.
- Strings are sequences of Dafny characters, while JavaScript strings are sequences of UTF-16 code units. Both patterns only look for ASCII characters. For text in the Basic Multilingual Plane, or for a data source without `$`, the resolver behaves the same on both.
- `Resolve`: does not model the UTF-16 code unit that `[^$]` captures. When the character before the placeholder lies outside the Basic Multilingual Plane, JavaScript captures only its low surrogate. A `$1`, `$&` or `` $` `` in the data source then yields different text. For example, the query `😀${DATA}` with the data source `$1` gives `😀` and a lone low surrogate in JavaScript, but `😀😀` in the model.

## Findings

| source | as written | input that shows it | evidently intended | confidence | as-written member | corrected member |
|---|---|---|---|---|---|---|
| index.mjs:33 | The data source is concatenated into the replacement template `'$1' + source`. `replace` therefore expands `$$`, `$&`, `$'`, `$1` and the before-match reference inside the data source. | Query `${DATA}` with data source `$&` resolves to ` ${DATA}`: the sentinel plus the matched text, not the data source. | The data source is inserted verbatim. The same input resolves to `$&`. | medium, not executed | `QueryTemplateExamples.SourceReadAsTemplate` | `QueryTemplate.ResolveLiteral` |

`ResolveLiteral` is the resolver with a verbatim substitution. Its contract
says that the first unescaped placeholder is replaced by the data source
exactly as written, whatever that data source contains. The `$$` collapse
comes after and can still touch the inserted text: `ResolveLiteral("${DATA}",
"a$$b")` is `a$b`. The contract of `Resolve` says that the page's resolver
agrees with `ResolveLiteral` whenever the data source has no `$`. The
equations for the page's resolver are derived through that agreement.
