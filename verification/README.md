# Translation statistics of Articles and Commits

A Dafny model of the statistics engine behind `ArticleOrCommitStats` in
Shuttle, a localization-workflow platform. An Article or a Commit holds
Keys. Each Key holds one Translation per target locale. The engine walks the
active Keys and classifies every non-base Translation as approved, pending or
new. For each state it counts Translations and source words, per locale. The
read accessors (`translations_done`, `_pending`, `_new`, `_not_done`,
`_total`, `words_pending`, `words_new`, `strings_total`) sum those counts
over a locale scope. With no locale arguments the scope is the container's
required locales. With arguments the scope is exactly the locales named.

The implementation file of `ArticleOrCommitStats` is not part of this model.
Its behaviour is taken from the assertions of its RSpec file,
`spec/models/concerns/article_or_commit_stats_spec.rb`.

Modules (one file each):

- `Wrappers` (`wrappers.dfy`): `Option`, for nullable attributes.
- `Translations` (`translations.dfy`): locales (opaque strings), the
  Translation record, base Translations and the completion classifier.
- `Containers` (`containers.dfy`): Keys, Sections, the two container kinds,
  the active-Key walk, required locales, adding a Translation at a slot (a
  position in a Key of either container kind), and lemmas showing that
  inactive Keys and Sections never matter.
- `Counter` (`counter.dfy`): the per-state sums, the snapshot (`stats`), the
  one-pass counting method, and the algebra of the sums: partition into
  states, additivity over walks and over locale scopes, order independence.
- `Queries` (`queries.dfy`): locale scoping, `fetch_stat`, the accessors,
  and the lemmas relating them.
- `Fixture` (`fixture.dfy`): the worked scenario of the RSpec file, for both
  an Article and a Commit.

Modelling decisions:

- The snapshot maps a state to its (translation count, word count) tally
  only when at least one scoped Translation is in that state. This is the
  shape of a grouped count. It is why `fetch_stat` needs a default: the
  stubbed snapshot at lines 21-24 has no bucket for `new`.
- A Commit's Keys are all active. The Commit Keys of the RSpec file belong
  to no Section and have no index, yet they count. An Article's Key is active
  when its Section is active and it has an index in that Section.
- Explicit locale arguments form a set, so a repeated locale counts once.
- Each Translation carries its source word count as a given number.

## Model

| member | source | states |
|---|---|---|
| Translations.Classify | spec/models/concerns/article_or_commit_stats_spec.rb:44-49 | each state holds exactly when its approval/copy condition holds: approved iff approved is true; pending iff rejected, or unreviewed with copy; new iff unreviewed without copy |
| Containers.SectionsActiveKeys | spec/models/concerns/article_or_commit_stats_spec.rb:83-89 | the walk yields only Keys with an index |
| Containers.SectionsActiveKeysComplete | spec/models/concerns/article_or_commit_stats_spec.rb:83-89 | the walk yields every indexed Key of every active Section |
| Containers.IndexedKeys | spec/models/concerns/article_or_commit_stats_spec.rb:86-88 | the kept Keys are exactly those that have an index, never more Keys than given |
| Containers.IndexedKeysCount | spec/models/concerns/article_or_commit_stats_spec.rb:86-88 | each indexed Key is kept exactly as often as it occurs, and a Key without an index never |
| Containers.SectionsActiveKeysSound | spec/models/concerns/article_or_commit_stats_spec.rb:83-89 | every walked Key belongs to an active Section |
| Containers.SectionsActiveKeysCount | spec/models/concerns/article_or_commit_stats_spec.rb:83-89 | the walk yields each Key exactly as often as it occurs, indexed, in an active Section (counted independently by `ActiveOccurrences`) |
| Containers.ActiveKeys | spec/models/concerns/article_or_commit_stats_spec.rb:83-106 | the Keys whose Translations are counted: all of a Commit's Keys, the indexed Keys of an Article's active Sections; pinned by SectionsActiveKeys, SectionsActiveKeysComplete, SectionsActiveKeysSound and SectionsActiveKeysCount |
| Containers.UnindexedKeyIgnored | spec/models/concerns/article_or_commit_stats_spec.rb:88-92 | inserting a Key without an index into any Section leaves the active Keys, and so every count, unchanged |
| Containers.InactiveSectionIgnored | spec/models/concerns/article_or_commit_stats_spec.rb:84-93 | inserting an inactive Section anywhere leaves the active Keys unchanged, whatever Keys it holds |
| Containers.InactiveKeyTranslationsIgnored | spec/models/concerns/article_or_commit_stats_spec.rb:88-93 | replacing the Translations of a Key that is unindexed or in an inactive Section leaves the active Keys unchanged |
| Containers.InsertTranslation | spec/models/concerns/article_or_commit_stats_spec.rb:91-93 | adds a Translation at a slot of a Commit's Key or of an Article's Key; the slot then holds that Key with the Translation inserted, and the slot stays walked or unwalked |
| Containers.InsertTranslationWalk | spec/models/concerns/article_or_commit_stats_spec.rb:86-107 | adding a Translation at an active Key, of a Commit or of an active Section's indexed Key of an Article, inserts it into the walked Translations between those walked before and after it |
| Containers.ActiveKeysAroundSlot | spec/models/concerns/article_or_commit_stats_spec.rb:86-106 | an active slot's Key sits between the same active Keys before and after the insertion, for both container kinds |
| Containers.ArticleKeyReplaced | spec/models/concerns/article_or_commit_stats_spec.rb:86-87 | replacing an indexed Key of an active Section by another indexed Key keeps it between the same active Keys |
| Containers.UnwalkedInsertIgnored | spec/models/concerns/article_or_commit_stats_spec.rb:88-93 | adding a Translation to an unindexed Key or a Key of an inactive Section leaves the Article's active Keys unchanged |
| Counter.Sum | spec/models/concerns/article_or_commit_stats_spec.rb:53-57 | a state's translation count never exceeds the number of Translations walked |
| Counter.StatsOfBuckets | spec/models/concerns/article_or_commit_stats_spec.rb:53-57 | a state has a bucket iff some scoped non-base Translation is in it, and each bucket holds that state's translation and word totals |
| Counter.ComputeStats | spec/models/concerns/article_or_commit_stats_spec.rb:53-57 | the one-pass walk over active Keys and their Translations yields exactly the snapshot defined state by state |
| Counter.CountKey | spec/models/concerns/article_or_commit_stats_spec.rb:41-50 | adding one Key's Translations to the running tallies gives the tallies of the longer walk |
| Counter.SumZeroIff | spec/models/concerns/article_or_commit_stats_spec.rb:21-29 | a state's count is zero iff no scoped Translation is in it, and then its word count is zero too |
| Counter.SumAppend | spec/models/concerns/article_or_commit_stats_spec.rb:41-50 | the sums over two concatenated walks add up |
| Counter.SumInsert | spec/models/concerns/article_or_commit_stats_spec.rb:41-50 | inserting one Translation anywhere changes a sum by its weight when it counts towards the state, and by nothing otherwise |
| Counter.SumPermutation | spec/models/concerns/article_or_commit_stats_spec.rb:41-50 | any rearrangement of the same Translations gives the same sums |
| Counter.StatesPartitionScope | spec/models/concerns/article_or_commit_stats_spec.rb:59-66 | the three states' sums add up to the sum over all scoped Translations: each is counted once, in one state |
| Counter.SumScopeUnion | spec/models/concerns/article_or_commit_stats_spec.rb:69-77 | the sums over two disjoint locale scopes add up to the sum over their union |
| Counter.SumUnusedLocale | spec/models/concerns/article_or_commit_stats_spec.rb:74-75 | adding to the scope a locale no Translation targets changes no sum |
| Counter.SumEmptyScope | spec/models/concerns/article_or_commit_stats_spec.rb:75 | an empty scope counts nothing |
| Queries.Scope | spec/models/concerns/article_or_commit_stats_spec.rb:69-82 | no locale arguments select the required locales; otherwise exactly the locales named, optional and untargeted ones included (see DefaultScopeIsRequired, OptionalLocaleExcludedByDefault, ExplicitLocaleCounts) |
| Containers.RequiredLocales | spec/models/concerns/article_or_commit_stats_spec.rb:82-100 | the locales targeted as required; an optional locale is left out (see OptionalLocaleExcludedByDefault, RequiredScope) |
| Translations.IsBase | spec/models/concerns/article_or_commit_stats_spec.rb:42-43 | a Translation into its own source locale; such a Translation never counts (see BaseTranslationNeverCounts) |
| Queries.StatsFor | spec/models/concerns/article_or_commit_stats_spec.rb:53-57 | `stats(*locales)`: the snapshot of the active Translations for the scope of the locale arguments; its buckets are characterised by Counter.StatsOfBuckets and DefaultScopeIsRequired |
| Counter.StatsOf | spec/models/concerns/article_or_commit_stats_spec.rb:53-57 | the grouped snapshot: a bucket per state holding the state's tally; its meaning is Counter.StatsOfBuckets, and Counter.ComputeStats computes it in one pass |
| Queries.FetchStat | spec/models/concerns/article_or_commit_stats_spec.rb:18-37 | the default when the state has no bucket or the field is not a stored count; the stored count otherwise; over a snapshot it reads as the counter's sum (see FetchIsSum) |
| Queries.Fetch | spec/models/concerns/article_or_commit_stats_spec.rb:18-37 | `fetch_stat` with the default 0, the reading behind every accessor; FetchIsSum shows it equals the counter's sum over the scope |
| Queries.TranslationsDone | spec/models/concerns/article_or_commit_stats_spec.rb:60-70 | `translations_done`: the approved count over the scope (FetchIsSum: the number of scoped approved Translations) |
| Queries.TranslationsPending | spec/models/concerns/article_or_commit_stats_spec.rb:62-71 | `translations_pending`: the pending count over the scope (FetchIsSum) |
| Queries.TranslationsNew | spec/models/concerns/article_or_commit_stats_spec.rb:63-72 | `translations_new`: the new count over the scope (FetchIsSum) |
| Queries.TranslationsNotDone | spec/models/concerns/article_or_commit_stats_spec.rb:61-73 | `translations_not_done`: pending plus new, which is total minus done (TotalCountsEachScopedTranslation) |
| Queries.TranslationsTotal | spec/models/concerns/article_or_commit_stats_spec.rb:64-75 | `translations_total`: done plus not done, which is the number of scoped non-base Translations (TotalCountsEachScopedTranslation) |
| Queries.WordsPending | spec/models/concerns/article_or_commit_stats_spec.rb:65-76 | `words_pending`: the pending word count over the scope (FetchIsSum) |
| Queries.WordsNew | spec/models/concerns/article_or_commit_stats_spec.rb:66-77 | `words_new`: the new word count over the scope (FetchIsSum) |
| Queries.StringsTotal | spec/models/concerns/article_or_commit_stats_spec.rb:59 | `strings_total`: the number of active Keys, not scoped by locale (IndexedKeyAddsOneString, SectionsActiveKeysCount) |
| Queries.IndexedKeyAddsOneString | spec/models/concerns/article_or_commit_stats_spec.rb:86-89 | adding an indexed Key to an active Section adds exactly one string, whatever Translations it holds |
| Queries.FetchIsSum | spec/models/concerns/article_or_commit_stats_spec.rb:27-37 | every count accessor equals the counter's sum over the scope, also when the state has no bucket |
| Queries.TotalCountsEachScopedTranslation | spec/models/concerns/article_or_commit_stats_spec.rb:59-66 | total = done + pending + new = number of scoped Translations; not done = total - done; total is at most the number walked; the three word counts add up to the scoped words |
| Queries.ScopedSumBound | spec/models/concerns/article_or_commit_stats_spec.rb:64 | the scoped count never exceeds the number of Translations walked |
| Queries.DefaultScopeIsRequired | spec/models/concerns/article_or_commit_stats_spec.rb:53-82 | a query without locale arguments answers as if the required locales had been named |
| Queries.ExplicitScopesAdd | spec/models/concerns/article_or_commit_stats_spec.rb:69-77 | every accessor over two disjoint explicit locale lists is the sum of the accessor over each |
| Queries.UntargetedLocaleContributesZero | spec/models/concerns/article_or_commit_stats_spec.rb:74-75 | naming a locale no active Translation targets adds nothing, and alone it gives an empty snapshot and a total of 0 |
| Queries.SameSumsSameStats | spec/models/concerns/article_or_commit_stats_spec.rb:53-57 | two walks with equal sums for every state and measure have the same snapshot |
| Queries.WalkOrderIrrelevant | spec/models/concerns/article_or_commit_stats_spec.rb:41-50 | containers whose active Keys hold the same Translations, in any order, have the same snapshot |
| Queries.ArticleAnswersAsCommit | spec/models/concerns/article_or_commit_stats_spec.rb:95-110 | an Article answers every query as the Commit holding its active Keys |
| Queries.InsertedTranslationEffect | spec/models/concerns/article_or_commit_stats_spec.rb:41-57 | one more walked Translation raises its own state's count by one and its words by its word count when in scope, and changes no other state, field or out-of-scope query |
| Queries.StatsInsert | spec/models/concerns/article_or_commit_stats_spec.rb:41-57 | on the snapshot itself: one more Translation adds exactly its own contribution to each looked-up count |
| Queries.InsertionChangesOnlyItsState | spec/models/concerns/article_or_commit_stats_spec.rb:41-57 | adding a Translation at any slot of a Commit or an Article changes each lookup by exactly that Translation's contribution when the slot's Key is active, and not at all otherwise |
| Queries.BaseTranslationNeverCounts | spec/models/concerns/article_or_commit_stats_spec.rb:42-43 | adding a base Translation at any slot of a Commit or an Article changes no lookup, even when it is approved |
| Queries.OptionalLocaleExcludedByDefault | spec/models/concerns/article_or_commit_stats_spec.rb:46-82 | adding a Translation in an optional or untargeted locale at any slot of a Commit or an Article changes no lookup made without locale arguments |
| Queries.ExplicitLocaleCounts | spec/models/concerns/article_or_commit_stats_spec.rb:69-77 | adding a non-base Translation to an active Key of a Commit or an Article, in a locale named explicitly, raises the total and its own state's count by one |
| Fixture.FixtureWalk | spec/models/concerns/article_or_commit_stats_spec.rb:86-107 | the Article's walk keeps only its two indexed Keys in the active Section; both containers walk the same eight Translations |
| Fixture.ArticleActiveKeys | spec/models/concerns/article_or_commit_stats_spec.rb:83-89 | of the scenario Article's four Keys only key1 and key2 are active |
| Fixture.ActiveSectionKeys | spec/models/concerns/article_or_commit_stats_spec.rb:86-89 | in the active Section only key1 and key2 have an index, so the Key without one drops out |
| Fixture.SumOfFour | spec/models/concerns/article_or_commit_stats_spec.rb:41-49 | a sum over four Translations is the sum of their weights |
| Fixture.FixtureFetch | spec/models/concerns/article_or_commit_stats_spec.rb:41-49 | every accessor over the scenario is the sum of the weights of its six non-base Translations |
| Fixture.RequiredScope | spec/models/concerns/article_or_commit_stats_spec.rb:82 | the required locales of the scenario are fr and ja |
| Fixture.FixtureStatsWithoutLocales | spec/models/concerns/article_or_commit_stats_spec.rb:52-67 | snapshot approved (2, 3), pending (1, 2), new (1, 1); strings 2; done 2, not done 2, pending 1, new 1, total 4; words pending 2, new 1; for Article and Commit |
| Fixture.FixtureSnapshot | spec/models/concerns/article_or_commit_stats_spec.rb:53-57 | those three buckets make up the whole snapshot |
| Fixture.FixtureStatsWithLocales | spec/models/concerns/article_or_commit_stats_spec.rb:69-78 | done(fr)=2, pending(ja,de)=2, new(ja)=1, not done(ja,fr,de)=3, total(fr,de,ja,tr)=6, total(tr)=0, words pending(fr,de,ja)=3, words new(fr,de,ja)=1 |
| Fixture.FetchStatExamples | spec/models/concerns/article_or_commit_stats_spec.rb:27-37 | on the stub: absent state gives the caller's default; unknown field gives 0; approved words gives 2 |

## Left out

- The snapshot store: caching the computed statistics, persisting them, and
  deciding when to recompute. Statistics are a pure function of the current
  tree.
- Persistence and fixture setup (ActiveRecord, FactoryBot). Containers are
  plain values.
- Parsing RFC 5646 locale tags (`Locale.from_rfc5646`). Locales are opaque
  strings compared by equality.
- Deriving word counts from source copy. Each Translation carries its word
  count. The scenario uses 2 for "hello world" and 1 for "whatsup".
- Queries.FetchStat: the default is an integer. The RSpec file also passes a
  symbol (`:doesnt_exist`), which the model does not represent.
- Concurrency and recomputation failures: nothing in the model runs
  concurrently or fails.
