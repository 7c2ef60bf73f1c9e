# gitlab-crawler, modelled in Dafny

`tobeno/gitlab-crawler` finds files in a GitLab instance by a selector such as
`org/*:main|master:README.md`. The selector has three levels: projects, branches
and files. Each level is a list of `|`-separated alternative patterns. For every
project whose path matches, the crawler picks the first matching branch. On that
branch it picks the first matching tree entry. It then fetches that file and
yields a `CrawledFile` with the decoded content. A project with no matching
branch or file is skipped. The project list, the branch lists and the trees are
kept in a PSR-6 cache pool for a configurable lifetime (one day by default).

The repository has two crawlers:

- `FileCrawler` takes an expression object or its text. It is a generator: the
  files it yields before an exception stay delivered.
- `Crawler` is the older crawler. It takes the text only and explodes it again in
  each `match*` method. It hashes only the ref into the tree cache key. It builds
  an array, so an exception loses every file gathered before it.

The project is organised as follows:

- `expression.dfy`: `FileCrawlerExpression` as an immutable datatype, with
  `parse`, `create`, `preparePart` and `__toString`, and their round-trip laws.
- `strings.dfy`: `explode`, `implode` and the integer-to-string conversion used in
  cache keys.
- `collections.dfy`: PHP ordered arrays with string keys. `$a[$k] = $v` replaces
  an existing key in place and appends a new key at the end.
- `matcher.dfy`: what `preg_match('~' . str_replace('*', '.*', preg_quote($p)) . '~', $key)`
  decides, stated as a recursive matcher. It is proved equal to an independent
  "fill each `*` with dots and find it in the key" reading. It also specifies
  `match` and `matchOne` (the nested loops) and their ordering, multiplicity and
  bound properties.
- `gitlab.dfy`: the records the crawler reads and a replayed snapshot of the
  remote service. The `Api` object logs every call, so the number and order of
  remote calls can be stated.
- `cache.dfy`: the cache pool, given an explicit clock. An item is a hit until
  `now + lifetime`.
- `results.dfy`: the mutable `CrawledFile` record.
- `pipeline.dfy`: what one crawl does, as functions of the remote data, the cache
  entries and the call log. This covers the cache keys, the three cached getters,
  one project's step, the crawl loop and both crawlers' `crawl`.
- `properties.dfy`: lemmas about those functions. They cover the cache keys,
  pagination, fetch-once, cache typing, pruning and call counts, the contents and
  order of the results, exceptions, and the differences between the two crawlers.
- `crawling.dfy` (`FileCrawler`) and `legacycrawling.dfy` (`Crawler`): the two
  classes. Each holds an `Api`, a `Pool` and the lifetime. Every method is proved
  to leave the pool and the call log exactly as the matching function of
  `Pipeline` says.

Where the intended design and the code differ, the model follows the code:

- Matching is not an anchored glob. `preg_quote` escapes `*` to `\*`, and the
  replacement then makes it `\.*`. So each `*` stands for zero or more `.`
  characters, not any text, and the regex is unanchored: `README.md` matches
  `docs/README.md`, `a*b` matches `a..b` but not `axb`, and `*` matches every key.
- `preg_quote` does not escape the delimiter `~`. A pattern that holds `~` makes
  `preg_match` fail, so it matches nothing.
- `create` accepts empty lists. Only `parse` guarantees non-empty levels.
- Without an injected pool, the crawler makes one `ArrayAdapter` in its
  constructor. That pool is shared by every crawl of that crawler object, not
  scoped to a single crawl.
- The `FileCrawler` tree key hashes `$ref . '.' . $path`. A ref `a.b` with no path
  and a ref `a` with path `b.` get the same key but different request options
  (`TreeFingerprintAmbiguous`). The crawler itself always passes no path.

## Model

Paths are relative to the repository root. Rows for definitions (functions without
a contract of their own) say what they compute; the lemmas and methods after them
state what is proved.

| member | source | states |
|---|---|---|
| Strings.Join | src/Tobeno/GitlabCrawler/Crawler/Expression/FileCrawlerExpression.php:70-76 | `implode`: the parts with the separator between each two |
| Strings.Split | src/Tobeno/GitlabCrawler/Crawler/Expression/FileCrawlerExpression.php:104 | `explode` gives one part more than there are separators, and no part holds the separator |
| Strings.JoinSplit | src/Tobeno/GitlabCrawler/Crawler/Expression/FileCrawlerExpression.php:68-78 | `implode` undoes `explode` |
| Strings.SplitJoin | src/Tobeno/GitlabCrawler/Crawler/Expression/FileCrawlerExpression.php:102-124 | `explode` undoes `implode` of a nonempty list of separator-free parts |
| Strings.IntToStringInjective | src/Tobeno/GitlabCrawler/Crawler/FileCrawler.php:180 | distinct project ids give distinct decimal strings in cache keys |
| Expression.Create | src/Tobeno/GitlabCrawler/Crawler/Expression/FileCrawlerExpression.php:86-96 | `create`: each level prepared by `preparePart` |
| Expression.ToString | src/Tobeno/GitlabCrawler/Crawler/Expression/FileCrawlerExpression.php:68-78 | `__toString`: the levels imploded on `\|`, then joined on `:` |
| Expression.PreparePart | src/Tobeno/GitlabCrawler/Crawler/Expression/FileCrawlerExpression.php:117-124 | a list is kept; a string becomes one pattern more than its `\|` count, and imploding them gives the string back |
| Expression.Parse | src/Tobeno/GitlabCrawler/Crawler/Expression/FileCrawlerExpression.php:102-111 | fails, with the message naming the text, exactly when the text does not hold two `:` |
| Expression.ParsedLevels | src/Tobeno/GitlabCrawler/Crawler/Expression/FileCrawlerExpression.php:102-124 | each parsed level has one pattern more than its segment has `\|`, and no pattern holds `:` or `\|` |
| Expression.ToStringParse | src/Tobeno/GitlabCrawler/Crawler/Expression/FileCrawlerExpression.php:68-111 | rendering a parsed expression gives exactly the text parsed |
| Expression.ParseToString | src/Tobeno/GitlabCrawler/Crawler/Expression/FileCrawlerExpression.php:68-124 | parsing a rendered expression with nonempty, separator-free levels gives the same three lists |
| Expression.CreateLevels | src/Tobeno/GitlabCrawler/Crawler/Expression/FileCrawlerExpression.php:86-124 | `create` keeps list arguments (empty ones too) and explodes string arguments on `\|` |
| Collections.PutAll | src/Tobeno/GitlabCrawler/Crawler/FileCrawler.php:160-162 | `$a[key($r)] = $r` for each record in turn, starting from a given collection |
| Collections.Put | src/Tobeno/GitlabCrawler/Crawler/FileCrawler.php:161 | after `$a[$k] = $v`, the key holds `$v` |
| Collections.PutKeys | src/Tobeno/GitlabCrawler/Crawler/FileCrawler.php:161 | an existing key keeps its position; a new key goes to the end |
| Collections.PutOthers | src/Tobeno/GitlabCrawler/Crawler/FileCrawler.php:161 | other keys keep their values |
| Collections.PutItems | src/Tobeno/GitlabCrawler/Crawler/FileCrawler.php:161 | the items afterwards are the old ones and the new one |
| Collections.PutDistinct | src/Tobeno/GitlabCrawler/Crawler/FileCrawler.php:161 | assignment never stores a key twice |
| Collections.PutEach | src/Tobeno/GitlabCrawler/Crawler/FileCrawler.php:160-162 | the `foreach` assignment loop builds what `PutAll` describes |
| Collections.PutAllAppend | src/Tobeno/GitlabCrawler/Crawler/FileCrawler.php:159-165 | filling from two pages one after the other is filling from their concatenation |
| Collections.PutAllKeys | src/Tobeno/GitlabCrawler/Crawler/FileCrawler.php:185-188 | keys appear in order of first appearance, old keys first |
| Collections.PutAllLastWins | src/Tobeno/GitlabCrawler/Crawler/FileCrawler.php:210-219 | each key holds the last record with that key |
| Collections.PutAllKeyedBy | src/Tobeno/GitlabCrawler/Crawler/FileCrawler.php:218 | every record is stored under the key its own field gives |
| Collections.PutAllDistinct | src/Tobeno/GitlabCrawler/Crawler/FileCrawler.php:185-188 | a built collection never holds a key twice |
| Matcher.MatchesPrefix | src/Tobeno/GitlabCrawler/Crawler/FileCrawler.php:294-297 | the rewritten pattern matches at the start of the key: `*` takes any run of `.`, every other character stands for itself |
| Matcher.MatchesSomewhere | src/Tobeno/GitlabCrawler/Crawler/FileCrawler.php:297 | the pattern matches at the start of some suffix of the key (no anchors) |
| Matcher.Matches | src/Tobeno/GitlabCrawler/Crawler/FileCrawler.php:294-297 | `preg_match` succeeds: no `~` in the pattern, and a match somewhere |
| Matcher.AltItems | src/Tobeno/GitlabCrawler/Crawler/FileCrawler.php:296-302 | the items one alternative selects, in key order |
| Matcher.MatchedItems | src/Tobeno/GitlabCrawler/Crawler/FileCrawler.php:293-303 | the items all alternatives select, alternative by alternative |
| Matcher.MatchSpec | src/Tobeno/GitlabCrawler/Crawler/FileCrawler.php:287-306 | `match`: the values of those items |
| Matcher.MatchOneSpec | src/Tobeno/GitlabCrawler/Crawler/FileCrawler.php:275-280 | `matchOne`: the first of them, or null |
| Matcher.MatchesIffOccurs | src/Tobeno/GitlabCrawler/Crawler/FileCrawler.php:294-297 | a key matches iff the pattern has no `~` and, with each `*` filled by some number of dots, occurs somewhere in the key |
| Matcher.PrefixSound | src/Tobeno/GitlabCrawler/Crawler/FileCrawler.php:294-297 | an anchored match yields a dot filling that is a prefix of the text |
| Matcher.PrefixComplete | src/Tobeno/GitlabCrawler/Crawler/FileCrawler.php:294-297 | any dot filling that is a prefix of the text is an anchored match |
| Matcher.SomewherePositions | src/Tobeno/GitlabCrawler/Crawler/FileCrawler.php:297 | unanchored matching is an anchored match at some position |
| Matcher.LiteralMatchesSubstring | src/Tobeno/GitlabCrawler/Crawler/FileCrawler.php:294-297 | a pattern without `*` or `~` matches exactly the keys containing it |
| Matcher.WildcardMatchesAll | src/Tobeno/GitlabCrawler/Crawler/FileCrawler.php:294-297 | `*` matches every key |
| Matcher.StarStandsForDots | src/Tobeno/GitlabCrawler/Crawler/FileCrawler.php:294 | `a*b` matches `ab` and `a..b` |
| Matcher.StarIsNotAnyCharacter | src/Tobeno/GitlabCrawler/Crawler/FileCrawler.php:294 | `a*b` does not match `axb` |
| Matcher.LiteralPrefix | src/Tobeno/GitlabCrawler/Crawler/FileCrawler.php:294-297 | a `*`-free pattern matches a text that starts with it |
| Matcher.SomewhereAfter | src/Tobeno/GitlabCrawler/Crawler/FileCrawler.php:297 | putting text in front keeps a key matching |
| Matcher.UnanchoredMatch | src/Tobeno/GitlabCrawler/Crawler/FileCrawler.php:297 | `README.md` matches `docs/README.md` |
| Matcher.SingleLetter | src/Tobeno/GitlabCrawler/Crawler/FileCrawler.php:294-297 | a one-letter pattern matches a one-letter key iff the letters are equal |
| Matcher.AltItemsStep | src/Tobeno/GitlabCrawler/Crawler/FileCrawler.php:296-302 | one more key of the inner loop appends that item iff it matches |
| Matcher.MatchedItemsStep | src/Tobeno/GitlabCrawler/Crawler/FileCrawler.php:293-303 | one more alternative of the outer loop appends its matches |
| Matcher.OccurrencesAppend | src/Tobeno/GitlabCrawler/Crawler/FileCrawler.php:300 | appending adds up occurrences of a key |
| Matcher.AltOccurrences | src/Tobeno/GitlabCrawler/Crawler/FileCrawler.php:296-302 | one alternative selects a present key once if it matches, else never |
| Matcher.MatchMultiplicity | src/Tobeno/GitlabCrawler/Crawler/FileCrawler.php:287-306 | a key appears in the result once per matching alternative; duplicates are kept |
| Matcher.AltItemsFromCollection | src/Tobeno/GitlabCrawler/Crawler/FileCrawler.php:296-302 | one alternative selects at most every item, only items of the set that match |
| Matcher.MatchedBound | src/Tobeno/GitlabCrawler/Crawler/FileCrawler.php:287-306 | at most \|patterns\| × \|set\| results |
| Matcher.MatchedFromCollection | src/Tobeno/GitlabCrawler/Crawler/FileCrawler.php:287-306 | every result is an item of the set whose key matches some alternative |
| Matcher.WildcardKeepsAll | src/Tobeno/GitlabCrawler/Crawler/FileCrawler.php:287-306 | `*` alone returns every value in insertion order |
| Matcher.AltItemsEmpty | src/Tobeno/GitlabCrawler/Crawler/FileCrawler.php:296-302 | an alternative selects nothing iff no key matches it |
| Matcher.MatchOneNone | src/Tobeno/GitlabCrawler/Crawler/FileCrawler.php:275-280 | `matchOne` is null iff no alternative matches any key |
| Matcher.AltItemsFirst | src/Tobeno/GitlabCrawler/Crawler/FileCrawler.php:296-302 | an alternative's first hit is its first matching key in insertion order |
| Matcher.MatchOneFirst | src/Tobeno/GitlabCrawler/Crawler/FileCrawler.php:275-306 | `matchOne` is the first key, in insertion order, of the first alternative that matches anything |
| Matcher.AlternationExample | src/Tobeno/GitlabCrawler/Crawler/FileCrawler.php:287-306 | `a\|b` against keys a, b, c gives the values of a then b |
| Matcher.Match | src/Tobeno/GitlabCrawler/Crawler/FileCrawler.php:287-306 | the nested loop returns, alternative by alternative and key by key, the values of matching keys |
| Matcher.MatchOne | src/Tobeno/GitlabCrawler/Crawler/FileCrawler.php:275-280 | the first element of `match`, or none iff `match` is empty |
| Gitlab.Api.Accessible | src/Tobeno/GitlabCrawler/Crawler/FileCrawler.php:159 | returns the page from the snapshot and logs the call |
| Gitlab.Api.Branches | src/Tobeno/GitlabCrawler/Crawler/FileCrawler.php:186 | returns the project's branches or a refusal, and logs the call |
| Gitlab.Api.Tree | src/Tobeno/GitlabCrawler/Crawler/FileCrawler.php:211-217 | returns the tree for the project and options or a refusal, and logs the call |
| Gitlab.Api.GetFile | src/Tobeno/GitlabCrawler/Crawler/FileCrawler.php:264 | returns the file at project, path and ref or a refusal, and logs the call |
| CachePool.Lookup | src/Tobeno/GitlabCrawler/Crawler/FileCrawler.php:153-155 | a hit iff the key is stored and has not expired, with the stored value |
| CachePool.Store | src/Tobeno/GitlabCrawler/Crawler/FileCrawler.php:167-168 | saves the value under the key, expiring after `lifetime`; other keys are unchanged |
| CachePool.StoreThenLookup | src/Tobeno/GitlabCrawler/Crawler/FileCrawler.php:167-171 | a saved value is a hit until it expires, then a miss |
| CachePool.StoreKeepsOthers | src/Tobeno/GitlabCrawler/Crawler/FileCrawler.php:167-168 | saving one key leaves lookups of other keys unchanged |
| CachePool.Pool.constructor | src/Tobeno/GitlabCrawler/Crawler/FileCrawler.php:56 | a new in-memory pool is empty |
| CachePool.Pool.GetItem | src/Tobeno/GitlabCrawler/Crawler/FileCrawler.php:153-155 | the pool's lookup at the given time |
| CachePool.Pool.Save | src/Tobeno/GitlabCrawler/Crawler/FileCrawler.php:167-168 | the pool's entries become the stored map |
| Results.CrawledFile.constructor | src/Tobeno/GitlabCrawler/CrawledFile.php:12-32 | a fresh record has all five fields null |
| Results.CrawledFile.GetProjectId | src/Tobeno/GitlabCrawler/CrawledFile.php:37-40 | returns the stored project id |
| Results.CrawledFile.SetProjectId | src/Tobeno/GitlabCrawler/CrawledFile.php:45-48 | stores any value, null included, and changes no other field |
| Results.CrawledFile.GetProjectName | src/Tobeno/GitlabCrawler/CrawledFile.php:53-56 | returns the stored project name |
| Results.CrawledFile.SetProjectName | src/Tobeno/GitlabCrawler/CrawledFile.php:61-64 | stores any value and changes no other field |
| Results.CrawledFile.GetBranchName | src/Tobeno/GitlabCrawler/CrawledFile.php:69-72 | returns the stored branch name |
| Results.CrawledFile.SetBranchName | src/Tobeno/GitlabCrawler/CrawledFile.php:77-80 | stores any value and changes no other field |
| Results.CrawledFile.GetPath | src/Tobeno/GitlabCrawler/CrawledFile.php:85-88 | returns the stored path |
| Results.CrawledFile.SetPath | src/Tobeno/GitlabCrawler/CrawledFile.php:93-96 | stores any value and changes no other field |
| Results.CrawledFile.GetContents | src/Tobeno/GitlabCrawler/CrawledFile.php:101-104 | returns the stored contents |
| Results.CrawledFile.SetContents | src/Tobeno/GitlabCrawler/CrawledFile.php:109-112 | stores any value and changes no other field |
| Results.Views | src/Tobeno/GitlabCrawler/Crawler/FileCrawler.php:141 | the records' contents, one for each record, in order |
| Pipeline.BranchesKey | src/Tobeno/GitlabCrawler/Crawler/FileCrawler.php:180 | `branches.<id>` |
| Pipeline.TreeKey | src/Tobeno/GitlabCrawler/Crawler/FileCrawler.php:205 | `tree.<id>.<fingerprint>` |
| Pipeline.FileTreeRequest | src/Tobeno/GitlabCrawler/Crawler/FileCrawler.php:205-216 | the key hashes `ref . "." . path` (no path is the empty string) and the listing is recursive iff there is no path |
| Pipeline.LegacyTreeRequest | src/Tobeno/GitlabCrawler/Crawler.php:198-206 | the key hashes the ref alone, and the ref is the only option |
| Pipeline.TreeRequest | src/Tobeno/GitlabCrawler/Crawler/FileCrawler.php:261 | the request `matchFile` makes: `getTree($projectId, $ref)` with no path |
| Pipeline.ProjectsLookup | src/Tobeno/GitlabCrawler/Crawler/FileCrawler.php:149-172 | `getProjects`: the cached collection on a hit; on a miss the pages from 1 to the first empty one, keyed by path and saved for `lifetime` |
| Pipeline.BranchesLookup | src/Tobeno/GitlabCrawler/Crawler/FileCrawler.php:178-195 | `getBranches`: the cached collection on a hit; on a miss one listing, keyed by name and saved, or the refusal with nothing saved |
| Pipeline.TreeLookup | src/Tobeno/GitlabCrawler/Crawler/FileCrawler.php:203-226 | `getTree` under a given key and options: hit, or one listing keyed by path and saved, or the refusal |
| Pipeline.FileFetch | src/Tobeno/GitlabCrawler/Crawler/FileCrawler.php:264 | `getFile`: one uncached call, the file or the refusal |
| Pipeline.MatchBranchSpec | src/Tobeno/GitlabCrawler/Crawler/FileCrawler.php:244-249 | `matchBranch`: the first branch the patterns select in the project's branches |
| Pipeline.MatchFileSpec | src/Tobeno/GitlabCrawler/Crawler/FileCrawler.php:257-268 | `matchFile`: the first tree entry the patterns select, then its file fetched on the branch; no fetch without an entry |
| Pipeline.StepSpec | src/Tobeno/GitlabCrawler/Crawler/FileCrawler.php:118-142 | one project of the `crawl` loop: pruned without a branch or a file, a file record made, or the exception raised |
| Pipeline.CrawlFrom | src/Tobeno/GitlabCrawler/Crawler/FileCrawler.php:117-143 | the `crawl` loop over the matched projects, ending at the first exception |
| Pipeline.CrawlAll | src/Tobeno/GitlabCrawler/Crawler/FileCrawler.php:115-143 | `matchProjects`, then that loop |
| Pipeline.CrawlSpec | src/Tobeno/GitlabCrawler/Crawler/FileCrawler.php:103-144 | `FileCrawler::crawl`: a text is parsed, anything but an expression is refused, then the crawl with the files yielded before an exception |
| Pipeline.LegacyLevels | src/Tobeno/GitlabCrawler/Crawler.php:223-265 | the three `\|`-split levels `Crawler` reads from the `:`-exploded text |
| Pipeline.LegacyCrawlSpec | src/Tobeno/GitlabCrawler/Crawler.php:101-138 | `Crawler::crawl`: refused text, or the crawl with no files when an exception ends it |
| Pipeline.FetchFrom | src/Tobeno/GitlabCrawler/Crawler/FileCrawler.php:158-165 | the page loop ends on an empty page at or after the one it starts from |
| Pipeline.PageCalls | src/Tobeno/GitlabCrawler/Crawler/FileCrawler.php:159 | the calls `accessible(first)` … `accessible(stop - 1)`, in order |
| Pipeline.CrawledFileSpec | src/Tobeno/GitlabCrawler/Crawler/FileCrawler.php:324-338 | fails with the unknown-encoding error iff the encoding is not `base64` |
| Pipeline.StepForIs | src/Tobeno/GitlabCrawler/Crawler/FileCrawler.php:117-143 | the loop body as a value is the one-project step |
| CrawlProperties.BranchesKeyInjective | src/Tobeno/GitlabCrawler/Crawler/FileCrawler.php:180 | distinct projects have distinct branch keys |
| CrawlProperties.DotSplit | src/Tobeno/GitlabCrawler/Crawler/FileCrawler.php:205 | `<id>.<hash>` splits uniquely at the first dot |
| CrawlProperties.TreeKeyInjective | src/Tobeno/GitlabCrawler/Crawler/FileCrawler.php:205 | tree keys of distinct projects or fingerprints are distinct |
| CrawlProperties.KeyKinds | src/Tobeno/GitlabCrawler/Crawler/FileCrawler.php:151-205 | project, branch and tree keys never collide across kinds |
| CrawlProperties.TreeFingerprintAmbiguous | src/Tobeno/GitlabCrawler/Crawler/FileCrawler.php:205-216 | ref `a.b` without path and ref `a` with path `b.` share a key but not their options |
| CrawlProperties.PagesBeforeStop | src/Tobeno/GitlabCrawler/Crawler/FileCrawler.php:158-165 | every page before the stop page is nonempty |
| CrawlProperties.PagesEnd | src/Tobeno/GitlabCrawler/Crawler/FileCrawler.php:158-165 | the loop stops at most one page past the last page |
| CrawlProperties.PagesCollected | src/Tobeno/GitlabCrawler/Crawler/FileCrawler.php:156-165 | the projects are those of all pages read, keyed by path, later duplicates overwriting |
| CrawlProperties.ProjectsMiss | src/Tobeno/GitlabCrawler/Crawler/FileCrawler.php:149-172 | on a miss pages 1 … last are read until the first empty one, and the collection is saved |
| CrawlProperties.BuiltFromScratch | src/Tobeno/GitlabCrawler/Crawler/FileCrawler.php:185-188 | a collection filled from nothing has distinct keys, each its record's field |
| CrawlProperties.ProjectsTyped | src/Tobeno/GitlabCrawler/Crawler/FileCrawler.php:149-172 | `getProjects` keeps every cache entry of its key's kind and returns a well-built collection |
| CrawlProperties.BranchesTyped | src/Tobeno/GitlabCrawler/Crawler/FileCrawler.php:178-195 | the same for `getBranches` |
| CrawlProperties.TreeTyped | src/Tobeno/GitlabCrawler/Crawler/FileCrawler.php:203-226 | the same for `getTree` |
| CrawlProperties.TreeRequestKey | src/Tobeno/GitlabCrawler/Crawler/FileCrawler.php:205 | both crawlers' tree keys have the tree-key form |
| CrawlProperties.MatchFileTyped | src/Tobeno/GitlabCrawler/Crawler/FileCrawler.php:257-268 | `matchFile` keeps every cache entry of its key's kind |
| CrawlProperties.StepState | src/Tobeno/GitlabCrawler/Crawler/FileCrawler.php:124-134 | one project's state is that after `matchBranch`, then after `matchFile` when a branch was chosen |
| CrawlProperties.StepTyped | src/Tobeno/GitlabCrawler/Crawler/FileCrawler.php:117-143 | one project keeps every cache entry of its key's kind |
| CrawlProperties.CrawlFromTyped | src/Tobeno/GitlabCrawler/Crawler/FileCrawler.php:117-143 | the loop keeps the cache well typed if each step does |
| CrawlProperties.CrawlAllTyped | src/Tobeno/GitlabCrawler/Crawler/FileCrawler.php:115-143 | a whole crawl keeps the cache well typed |
| CrawlProperties.ProjectsFetchedOnce | src/Tobeno/GitlabCrawler/Crawler/FileCrawler.php:149-172 | a second `getProjects` at the same time returns the same without any call |
| CrawlProperties.BranchesFetchedOnce | src/Tobeno/GitlabCrawler/Crawler/FileCrawler.php:178-195 | a second successful `getBranches` returns the same without any call |
| CrawlProperties.TreeFetchedOnce | src/Tobeno/GitlabCrawler/Crawler/FileCrawler.php:203-226 | a second successful `getTree` returns the same without any call |
| CrawlProperties.BranchesHit | src/Tobeno/GitlabCrawler/Crawler/FileCrawler.php:182-194 | a hit returns the stored branches and changes nothing |
| CrawlProperties.BranchesMiss | src/Tobeno/GitlabCrawler/Crawler/FileCrawler.php:184-192 | a miss lists branches once, keys them by name and saves them for `lifetime` seconds; a refusal saves nothing |
| CrawlProperties.MatchBranchExtendsLog | src/Tobeno/GitlabCrawler/Crawler/FileCrawler.php:244-249 | `matchBranch` makes at most the one branch-list call |
| CrawlProperties.MatchFileExtendsLog | src/Tobeno/GitlabCrawler/Crawler/FileCrawler.php:257-268 | `matchFile` only appends to the call log, at most two calls |
| CrawlProperties.StepExtendsLog | src/Tobeno/GitlabCrawler/Crawler/FileCrawler.php:117-143 | one project only appends to the call log, at most three calls |
| CrawlProperties.NoBranchNoTree | src/Tobeno/GitlabCrawler/Crawler/FileCrawler.php:124-134 | without a matching branch the project is skipped and no tree or file is requested |
| CrawlProperties.NoItemNoFetch | src/Tobeno/GitlabCrawler/Crawler/FileCrawler.php:261-267 | without a matching tree entry `getFile` is not called |
| CrawlProperties.PrunedFetchesNoFile | src/Tobeno/GitlabCrawler/Crawler/FileCrawler.php:117-143 | a skipped project never had a file fetched |
| CrawlProperties.EmittedFile | src/Tobeno/GitlabCrawler/Crawler/FileCrawler.php:117-143 | a produced file holds the project's id and path, a matching branch's name, and the decoded content of the base64 file of a matching tree entry |
| CrawlProperties.CrawlFromStep | src/Tobeno/GitlabCrawler/Crawler/FileCrawler.php:117-143 | one more turn of the loop |
| CrawlProperties.CrawlFromBound | src/Tobeno/GitlabCrawler/Crawler/FileCrawler.php:117-143 | at most one file per matched project entry |
| CrawlProperties.CrawlFromErrorStops | src/Tobeno/GitlabCrawler/Crawler/FileCrawler.php:117-143 | after an exception no further project is looked at |
| CrawlProperties.CrawlFromErrorAt | src/Tobeno/GitlabCrawler/Crawler/FileCrawler.php:117-143 | an exception within the first `i` projects ends the whole loop there |
| CrawlProperties.CrawlFromAppend | src/Tobeno/GitlabCrawler/Crawler/FileCrawler.php:117-143 | the loop walks left to right, carrying the state, with files concatenated |
| CrawlProperties.CrawlFromKeepsPrefix | src/Tobeno/GitlabCrawler/Crawler/FileCrawler.php:117-143 | files of a first exception-free run of projects begin the output |
| CrawlProperties.StepFromProject | src/Tobeno/GitlabCrawler/Crawler/FileCrawler.php:331-332 | a produced file carries its project's id and path |
| CrawlProperties.CrawledInOrder | src/Tobeno/GitlabCrawler/Crawler/FileCrawler.php:117-143 | files follow the project order, each from its own entry, at most one per entry |
| CrawlProperties.CrawlAllInOrder | src/Tobeno/GitlabCrawler/Crawler/FileCrawler.php:115-143 | every crawled file belongs to a matched project, in match order |
| CrawlProperties.CrawlAllBound | src/Tobeno/GitlabCrawler/Crawler/FileCrawler.php:115-143 | at most \|project patterns\| × \|projects\| files |
| CrawlProperties.InvalidInputTouchesNothing | src/Tobeno/GitlabCrawler/Crawler/FileCrawler.php:105-111 | bad text or an unsupported argument fails before any cache or remote access, in both crawlers |
| CrawlProperties.LegacyLevelsAreParsed | src/Tobeno/GitlabCrawler/Crawler.php:221-265 | the older crawler's ad hoc splitting reads the same levels `parse` gives |
| CrawlProperties.GeneratorKeepsEarlierFiles | src/Tobeno/GitlabCrawler/Crawler/FileCrawler.php:117-143 | files yielded before a later exception stay delivered |
| CrawlProperties.LegacyExceptionLosesFiles | src/Tobeno/GitlabCrawler/Crawler.php:105-137 | once an exception is raised within the first `i` matched projects, the older crawler returns no file, and reports that first exception |
| CrawlProperties.LegacyCrawlWithoutException | src/Tobeno/GitlabCrawler/Crawler.php:105-137 | without an exception the older crawler returns the whole walk |
| CrawlProperties.LegacyCrawlBound | src/Tobeno/GitlabCrawler/Crawler.php:101-138 | at most one file per matched project entry, and none for a text without exactly two `:` |
| CrawlProperties.TextCrawlsAsParsed | src/Tobeno/GitlabCrawler/Crawler/FileCrawler.php:105-107 | crawling a text is crawling the expression it parses to |
| Crawling.FileCrawler.constructor | src/Tobeno/GitlabCrawler/Crawler/FileCrawler.php:19-57 | keeps the given pool, or makes an empty one; the lifetime is one day |
| Crawling.FileCrawler.GetCacheLifetime | src/Tobeno/GitlabCrawler/Crawler/FileCrawler.php:86-89 | returns the lifetime |
| Crawling.FileCrawler.SetCacheLifetime | src/Tobeno/GitlabCrawler/Crawler/FileCrawler.php:94-97 | sets the lifetime |
| Crawling.FileCrawler.GetProjects | src/Tobeno/GitlabCrawler/Crawler/FileCrawler.php:149-172 | the paging loop leaves the pool, log and result as `getProjects` is specified |
| Crawling.FileCrawler.GetBranches | src/Tobeno/GitlabCrawler/Crawler/FileCrawler.php:178-195 | as specified for `getBranches` |
| Crawling.FileCrawler.GetTree | src/Tobeno/GitlabCrawler/Crawler/FileCrawler.php:203-226 | as specified for `getTree`, with the key and options of `ref` and `path` |
| Crawling.FileCrawler.MatchProjects | src/Tobeno/GitlabCrawler/Crawler/FileCrawler.php:232-237 | the matching projects of the cached project list |
| Crawling.FileCrawler.MatchBranch | src/Tobeno/GitlabCrawler/Crawler/FileCrawler.php:244-249 | the first matching branch of the cached list |
| Crawling.FileCrawler.MatchFile | src/Tobeno/GitlabCrawler/Crawler/FileCrawler.php:257-268 | the file of the first matching tree entry, fetched only when there is one |
| Crawling.FileCrawler.CreateCrawledFile | src/Tobeno/GitlabCrawler/Crawler/FileCrawler.php:324-338 | a fresh record with the five fields, or the encoding error |
| Crawling.FileCrawler.Visit | src/Tobeno/GitlabCrawler/Crawler/FileCrawler.php:118-142 | one project's turn of the loop, as specified |
| Crawling.FileCrawler.CrawlProjects | src/Tobeno/GitlabCrawler/Crawler/FileCrawler.php:117-143 | the loop yields the specified files, in order, then ends at the first exception |
| Crawling.FileCrawler.Crawl | src/Tobeno/GitlabCrawler/Crawler/FileCrawler.php:103-144 | `crawl`: parse or refuse the argument, then the crawl, files yielded before an exception kept |
| LegacyCrawling.Crawler.constructor | src/Tobeno/GitlabCrawler/Crawler.php:17-55 | keeps the given pool, or makes an empty one; the lifetime is one day |
| LegacyCrawling.Crawler.GetCacheLifetime | src/Tobeno/GitlabCrawler/Crawler.php:84-87 | returns the lifetime |
| LegacyCrawling.Crawler.SetCacheLifetime | src/Tobeno/GitlabCrawler/Crawler.php:92-95 | sets the lifetime |
| LegacyCrawling.Crawler.GetProjects | src/Tobeno/GitlabCrawler/Crawler.php:143-166 | as specified for `getProjects` |
| LegacyCrawling.Crawler.GetBranches | src/Tobeno/GitlabCrawler/Crawler.php:172-189 | as specified for `getBranches` |
| LegacyCrawling.Crawler.GetTree | src/Tobeno/GitlabCrawler/Crawler.php:196-215 | keyed by the hash of the ref alone, listed with the ref as the only option |
| LegacyCrawling.Crawler.Match | src/Tobeno/GitlabCrawler/Crawler.php:291-311 | the `FileCrawler` match on the `\|`-split pattern text |
| LegacyCrawling.Crawler.MatchOne | src/Tobeno/GitlabCrawler/Crawler.php:279-284 | the first match on the `\|`-split pattern text, or none |
| LegacyCrawling.Crawler.MatchProjects | src/Tobeno/GitlabCrawler/Crawler.php:221-231 | refuses text without exactly two `:` before any access; else the matching projects |
| LegacyCrawling.Crawler.MatchBranch | src/Tobeno/GitlabCrawler/Crawler.php:238-248 | refuses bad text without access; else the first matching branch |
| LegacyCrawling.Crawler.MatchFile | src/Tobeno/GitlabCrawler/Crawler.php:256-272 | refuses bad text without access; else the file of the first matching tree entry |
| LegacyCrawling.Crawler.CreateCrawledFile | src/Tobeno/GitlabCrawler/Crawler.php:329-342 | a fresh record with the five fields, or the encoding error |
| LegacyCrawling.Crawler.Visit | src/Tobeno/GitlabCrawler/Crawler.php:110-135 | one project's turn of the loop, as specified |
| LegacyCrawling.Crawler.CrawlProjects | src/Tobeno/GitlabCrawler/Crawler.php:107-137 | the loop's files, or none after an exception |
| LegacyCrawling.Crawler.Crawl | src/Tobeno/GitlabCrawler/Crawler.php:101-138 | `crawl`: all files, or an exception and none |

## Left out

- The HTTP client, authentication and setup: the remote service is a finite snapshot (`RemoteData`) replayed by `Api`. A request missing from the snapshot is refused, and the refusal travels up unchanged as `RemoteFailure`.
- `projects->accessible` never fails in the model: every page number has an answer (pages past the end are empty).
- Cache backends (`ArrayAdapter`, `FilesystemAdapter`): the pool is a map with an expiry time per entry. The clock is a parameter, constant during one crawl.
- `md5` and `base64_decode` are uninterpreted functions given to the crawler, so nothing is claimed about collisions or decoding.
- The PCRE engine: the matcher states the rule that the quoted, rewritten pattern implements, including that a pattern holding `~` matches nothing. The warning PHP emits in that case is not modelled.
- Generator mechanics: `FileCrawler::crawl` is modelled as the sequence of files it yields plus the exception that ends it. A consumer that stops early is not modelled.
- Logging (`log`, `LoggerAwareTrait`), `getClient`, `getCache` and `setCache`. `setCache(null)` would make later lookups crash; the model always has a pool.
- PHP's conversion of numeric-string array keys to integers: keys stay strings.
- The `(int)` cast of project ids: ids are integers already.
- A cached value of the wrong kind under a key reads as an empty collection. The crawlers never store such a value (`CrawlAllTyped`).
- example/simple.php and example/setup.php (console output, client setup).
- FileCrawlerInterface.php: a signature only.
- CrawledFile's record in `FileCrawler` lives in a namespace (`Crawler\Result`) whose file is not part of this model. The record of src/Tobeno/GitlabCrawler/CrawledFile.php is used for both crawlers.
- CrawlProperties.ProjectsFetchedOnce: holds only for a positive lifetime. With a lifetime of zero or less the item expires as it is saved, and every lookup fetches again.
