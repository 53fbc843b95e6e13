# arcane-rarepairs tag wrangling, in Dafny

A model of the core of `ao3.py`, the script that counts fan-fiction works on
the Archive of Our Own (AO3) for every pairing of *Arcane* characters. It
covers four things:

- how a pair of character names becomes the archive's canonical relationship tag;
- how the work count is read from a search result;
- how the roster is expanded into the table of pairings;
- how the searches are paced.

The modules are:

- `Words` (`words.dfy`): Python's `str.split()` with no separator and
  `' '.join(...)`. Whitespace is the set of characters `str.isspace` accepts.
- `StringOrder` (`string_order.dfy`): Python's `<` on `str`, which compares
  code points lexicographically. `sorted` uses it on the sort keys.
- `Wrangling` (`wrangling.dfy`):
  - `wrangle_fandom_tag`, as `FandomTag`;
  - `reverse_names`, as `ReverseNames`;
  - `wrangle_relationship_tag`, as `SortedPair` + `TagSuffixes` + `RelationshipTag`.

  It also has `DecodeTag`, which reads a tag back into its two names. It exists
  to prove that a tag determines its pairing.
- `WorkCount` (`work_count.dfy`): the part of `get_work_count` after the
  request. The response is abstracted to a status code and an optional main
  container with an optional heading text. The count is the leading `[0-9]+`
  run of the heading, read as a decimal number.
- `Collection` (`collection.dfy`): the main block. It covers:
  - `combinations_with_replacement` over the roster, as index pairs;
  - the `A`, `B`, `type` and `selfcest` columns;
  - the loop that issues one search per row, with a pause before every search but the first.

  The search endpoint is a parameter: a total function from the request's
  position in the run (0 for the first search) and the query string to a
  `Response`. The same query can therefore be answered differently at
  different points of the run, as a rate limit does.
- `Wrappers` (`wrappers.dfy`): `Option` and `Result`.

Behaviour of `ao3.py` worth noting:

- `reverse_names` reverses every name. No name is kept whole.
- A count written with thousands separators, such as `1,234 Works`, reads as
  `1`. The pattern `[0-9]+` stops at the comma. See `GroupedCountReadsLeadingGroup`.
- A rate-limited search does not write a partial file. `RateLimitedError`
  propagates, so no table is written. `Collect` returns `Failure` and no records.
- The tag is symmetric in its two arguments only when the names are equal or
  their sort keys differ. Normalized spacing is enough for that. It is not
  symmetric for every pair of strings: see `PaddedNameBreaksSymmetry`.

## Model

| member | source | states |
|---|---|---|
| Words.Split | ao3.py:66 | every word `split()` returns is non-empty and whitespace-free; a string starting with a non-space starts with its leading word |
| Words.SplitKeepsNonSpace | ao3.py:80 | concatenating the words of `split()` gives exactly the non-whitespace characters of the name, in order |
| Words.SplitJoin | ao3.py:80-83 | `split` undoes `' '.join` on any sequence of words |
| Words.NormalizedSpacingIff | ao3.py:80-83 | `' '.join(s.split()) == s` exactly when every whitespace character of `s` is a single inner plain space |
| Wrangling.FandomTag | ao3.py:66-71 | the result is one of the three suffixes: none exactly for names of more than one word; League of Legends for a one-word name in the champion list; Arcane: League of Legends for any other one-word name |
| Wrangling.OneWordFandomTag | ao3.py:66-71 | a one-word name gets the League of Legends suffix exactly when it is listed, and the Arcane: League of Legends suffix otherwise |
| Wrangling.ChampionsGetLeagueSuffix | ao3.py:37-46 | every listed champion is a single word and gets the League of Legends suffix |
| Wrangling.ReverseNames | ao3.py:74-83 | the words of the result are the words of the name in reverse order, and the result has single-space spacing |
| Wrangling.ReverseNamesTwice | ao3.py:80-83 | reversing twice gives `' '.join(name.split())` |
| Wrangling.ReverseNamesInvolution | ao3.py:80-83 | on names with normalized spacing, reversing twice is the identity |
| Wrangling.ReverseNamesInjective | ao3.py:80-83 | distinct names with normalized spacing have distinct sort keys |
| StringOrder.LessTotal | ao3.py:98 | two different strings are ordered one way or the other by Python's string comparison |
| StringOrder.NotLessIsLessEq | ao3.py:98 | not sorting strictly before means sorting at or after, so `sorted` yields keys in non-decreasing order |
| Wrangling.SortedPair | ao3.py:98 | the sort returns the two names, keyed by family name first, in non-decreasing key order, and keeps argument order on equal keys (stable) |
| Wrangling.TagSuffixes | ao3.py:99-106 | a multi-word name removes both suffixes; one-word names of the same fandom keep only the second suffix; one-word names of different fandoms keep both |
| Wrangling.RelationshipTag | ao3.py:86-108 | the tag is `first/second` in family-name order, followed by the suffixes the wrangling rules keep, in each of the five cases |
| Wrangling.TagSymmetric | ao3.py:98 | the tag does not depend on argument order when the names are equal or their sort keys differ |
| Wrangling.TagSymmetricNormalized | ao3.py:98 | the tag does not depend on argument order for names with normalized spacing |
| Wrangling.PaddedNameBreaksSymmetry | ao3.py:98-108 | for every one-word name, the name with a trailing space shares its sort key, so the stable sort keeps argument order and the tag depends on argument order |
| Wrangling.TagDecodes | ao3.py:108 | for names without '/' or '(', the tag reads back as exactly the sorted pair of names |
| Wrangling.TagInFamilyNameOrder | ao3.py:92-98 | read back, a tag holds the two names, the first with a family-name key no greater than the second's |
| Wrangling.TagDeterminesPair | ao3.py:108 | two pairings of such names with the same tag are the same unordered pair |
| WorkCount.LeadingDigits | ao3.py:35 | the result is the longest prefix of ASCII digits: a prefix, all digits, followed by a non-digit or the end |
| WorkCount.Decimal | ao3.py:131 | the canonical numeral of `n` reads back as `n` with `int`, and has no leading zero unless `n` is 0 |
| WorkCount.ParseCount | ao3.py:130-133 | an absent heading is 0; a present heading fails exactly when its text does not start with a digit |
| WorkCount.CountRoundTrip | ao3.py:131 | a heading that starts with the numeral of `n`, followed by a non-digit or nothing, reads as `n` |
| WorkCount.LeadingZeroIgnored | ao3.py:131 | a leading zero does not change the count read |
| WorkCount.GroupedCountReadsLeadingGroup | ao3.py:35 | "1,234 Works" reads as 1 |
| WorkCount.WorkCountOf | ao3.py:123-135 | status 429 is exactly the rate-limit error; a missing main container is an error; otherwise the count is the parse of the heading, and 0 when there is none |
| WorkCount.Query | ao3.py:121 | the query is the tag wrapped in double quotes |
| Collection.PairsFrom | ao3.py:145 | lists every index pair x <= y once, within range, in strictly increasing lexicographic order |
| Collection.PairsFromLength | ao3.py:145 | the pairs drawn from n - i indices number (n-i)(n-i+1)/2 |
| Collection.IndexPairs | ao3.py:145 | a roster of n entries yields n(n+1)/2 pairs |
| Collection.CountSelfPairs | ao3.py:145 | exactly n - i of the pairs pair an entry with itself |
| Collection.MakeRow | ao3.py:146-150 | `type` is gender A, '/', gender B; `selfcest` holds exactly when the names A and B are equal |
| Collection.Enumerate | ao3.py:143-151 | the table has N(N+1)/2 rows; each pair of roster positions i <= j has its row; `selfcest` matches name equality |
| Collection.EnumerateRow | ao3.py:145-151 | row k is the row of the k-th index pair, whose positions satisfy i <= j; the index pairs are in `combinations_with_replacement` order, so the rows are too |
| Collection.EnumerateOnlyPairs | ao3.py:145-151 | the table holds no other rows: every row is the row of some pair of roster positions i <= j |
| Collection.SelfcestCount | ao3.py:150 | with distinct names, exactly N rows are marked `selfcest` |
| Collection.QueriesDistinct | ao3.py:119-121 | with distinct names free of '/' and '(', no two rows search for the same query |
| Collection.QueryDeterminesPair | ao3.py:119-121 | for names free of '/' and '(', equal queries mean the same two names, in the same or the swapped order |
| Collection.Paced | ao3.py:169-174 | searches sit at the even positions, in row order; pauses of the sleep period sit at the odd positions between them |
| Collection.PauseCount | ao3.py:171-172 | a run of n searches pauses n - 1 times |
| Collection.PacedStep | ao3.py:171-174 | each further search adds a pause first, unless it is the first search |
| Collection.RunSearches | ao3.py:169-177 | searches run in order with pacing; success records every count; otherwise the run stops at the first failing search, after which nothing is issued |
| Collection.Collect | ao3.py:169-182 | on success, one record per row with that row's count; on failure, the error of the last issued search, which is the only failing one, and no table |

## Left out

- HTTP session and the retry adapter (ao3.py:157-167) are network I/O and
  library policy. The endpoint is a function from the request's position in
  the run and its query to the response.
  Whether the adapter returns a 429 response after its retries or raises by
  itself is library behaviour, so the model takes the status as given. Either
  way the run stops.
- Percent-encoding of the query parameter (ao3.py:121) is done by the HTTP
  library. The model stops at the quoted query string.
- The BeautifulSoup traversal (ao3.py:126-128) is a foreign library. It is
  abstracted as an optional main container holding an optional heading text.
- Reading `characters.csv`, sorting it by gender, and writing
  `relationships.csv` (ao3.py:140-141, 181-182) are file I/O and pandas
  behaviour. The roster is taken as given, already sorted.
- The endpoint's answer depends on the request's position in the run and its
  query, not on wall-clock time. Rate limiting that depends on timing is
  covered only as far as any answer at any position may be a 429.
- `time.sleep` itself (ao3.py:172). Only the number and position of the
  pauses are modelled, each with the 5-second period.
- The progress line printed per search (ao3.py:179) is output only.
- `app.py` is the Streamlit dashboard over the finished table. It is not part
  of this model.
- Collection.Queries: states only that there is one query per row. What each
  query holds is stated by `RelationshipTag` and `Query`.
