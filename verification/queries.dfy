/** The query facade: the public read accessors of an Article or a Commit,
    all answered from the snapshot for a locale scope. With no locale
    arguments the scope is the container's required locales; with
    arguments it is exactly the locales named. */
module Queries {
  import opened Translations
  import opened Containers
  import opened Counter

  /** The fields a snapshot bucket may be asked for. Only the two counts
      are ever stored; any other field name is absent. */
  datatype Field = TranslationsCount | WordsCount | OtherField(name: string)

  /** The locale scope of a query with the given locale arguments. */
  function Scope(c: Container, locales: seq<Locale>): (r: set<Locale>)
    ensures |locales| == 0 ==> r == RequiredLocales(c)
    ensures |locales| > 0 ==> forall l :: l in r <==> l in locales
  {
    if |locales| == 0 then RequiredLocales(c) else set l | l in locales
  }

  /** The snapshot for the given locale arguments. */
  function StatsFor(c: Container, locales: seq<Locale>): Stats
  {
    StatsOf(ActiveTranslations(c), Scope(c, locales))
  }

  /** Defensive lookup of one field of one state's bucket: the caller's
      default when the state has no bucket or the bucket has no such field. */
  function FetchStat(stats: Stats, state: State, field: Field, default: int): (r: int)
    ensures state !in stats ==> r == default
    ensures state in stats && field.OtherField? ==> r == default
    ensures state in stats && field == TranslationsCount ==> r == stats[state].translations
    ensures state in stats && field == WordsCount ==> r == stats[state].words
  {
    if state !in stats then default
    else
      match field
      case TranslationsCount => stats[state].translations
      case WordsCount => stats[state].words
      case OtherField(_) => default
  }

  /** `FetchStat` on the snapshot for `locales`, with the default default 0. */
  function Fetch(c: Container, locales: seq<Locale>, state: State, field: Field): int
  {
    FetchStat(StatsFor(c, locales), state, field, 0)
  }

  function TranslationsDone(c: Container, locales: seq<Locale>): int
  {
    Fetch(c, locales, Approved, TranslationsCount)
  }

  function TranslationsPending(c: Container, locales: seq<Locale>): int
  {
    Fetch(c, locales, Pending, TranslationsCount)
  }

  function TranslationsNew(c: Container, locales: seq<Locale>): int
  {
    Fetch(c, locales, New, TranslationsCount)
  }

  function TranslationsNotDone(c: Container, locales: seq<Locale>): int
  {
    TranslationsPending(c, locales) + TranslationsNew(c, locales)
  }

  function TranslationsTotal(c: Container, locales: seq<Locale>): int
  {
    TranslationsDone(c, locales) + TranslationsNotDone(c, locales)
  }

  function WordsPending(c: Container, locales: seq<Locale>): int
  {
    Fetch(c, locales, Pending, WordsCount)
  }

  function WordsNew(c: Container, locales: seq<Locale>): int
  {
    Fetch(c, locales, New, WordsCount)
  }

  /** Number of active Keys; not scoped by locale. */
  function StringsTotal(c: Container): nat
  {
    |ActiveKeys(c)|
  }

  /** strings_total counts Keys, not Translations: adding an indexed Key to
      an active Section of an Article adds one string, whatever
      Translations the Key holds; an unindexed Key or an inactive Section
      adds none (`UnindexedKeyIgnored`, `InactiveSectionIgnored`). */
  lemma IndexedKeyAddsOneString(secs: seq<Section>, targeted: map<Locale, bool>, si: nat, ki: nat, k: Key)
    requires si < |secs| && ki <= |secs[si].keys|
    requires secs[si].active && Indexed(k)
    ensures StringsTotal(Article(secs[si := Section(true, secs[si].keys[..ki] + [k] + secs[si].keys[ki..])], targeted))
         == StringsTotal(Article(secs, targeted)) + 1
  {
    var ks := secs[si].keys;
    var s' := Section(true, ks[..ki] + [k] + ks[ki..]);
    IndexedKeyInserted(ks, ki, k);
    SectionSplit(secs, si, s');
    SectionSplit(secs, si, secs[si]);
    assert secs[si := secs[si]] == secs;
    assert |SectionActiveKeys(s')| == |SectionActiveKeys(secs[si])| + 1;
  }

  /** A state without a bucket reads as zero: every count accessor equals
      the counter's sum over the scope, whether or not the state has a
      bucket. */
  lemma FetchIsSum(c: Container, locales: seq<Locale>, state: State)
    ensures Fetch(c, locales, state, TranslationsCount) == Sum(ActiveTranslations(c), state, Scope(c, locales), TranslationCount)
    ensures Fetch(c, locales, state, WordsCount) == Sum(ActiveTranslations(c), state, Scope(c, locales), WordCount)
  {
    SumZeroIff(ActiveTranslations(c), state, Scope(c, locales));
  }

  /** The total is the number of scoped non-base Translations of active
      Keys, each counted once; pending plus new is what is not done; the
      word counts of the three states likewise add up to the scoped words. */
  lemma TotalCountsEachScopedTranslation(c: Container, locales: seq<Locale>)
    ensures TranslationsTotal(c, locales) == ScopedSum(ActiveTranslations(c), Scope(c, locales), TranslationCount)
    ensures TranslationsTotal(c, locales) == TranslationsDone(c, locales) + TranslationsPending(c, locales) + TranslationsNew(c, locales)
    ensures TranslationsNotDone(c, locales) == TranslationsTotal(c, locales) - TranslationsDone(c, locales)
    ensures 0 <= TranslationsTotal(c, locales) <= |ActiveTranslations(c)|
    ensures Fetch(c, locales, Approved, WordsCount) + WordsPending(c, locales) + WordsNew(c, locales)
         == ScopedSum(ActiveTranslations(c), Scope(c, locales), WordCount)
  {
    var ts, scope := ActiveTranslations(c), Scope(c, locales);
    FetchIsSum(c, locales, Approved);
    FetchIsSum(c, locales, Pending);
    FetchIsSum(c, locales, New);
    StatesPartitionScope(ts, scope, TranslationCount);
    StatesPartitionScope(ts, scope, WordCount);
    ScopedSumBound(ts, scope);
  }

  lemma {:induction false} ScopedSumBound(ts: seq<Translation>, scope: set<Locale>)
    ensures ScopedSum(ts, scope, TranslationCount) <= |ts|
    decreases |ts|
  {
    if ts != [] {
      ScopedSumBound(ts[..|ts| - 1], scope);
    }
  }

  /** With no locale arguments a query answers exactly as if the required
      locales had been named. */
  lemma DefaultScopeIsRequired(c: Container, required: seq<Locale>)
    requires |required| > 0
    requires forall l :: l in required <==> l in RequiredLocales(c)
    ensures StatsFor(c, []) == StatsFor(c, required)
  {
    assert Scope(c, []) == Scope(c, required);
  }

  /** Queries over two disjoint explicit locale lists add up. */
  lemma ExplicitScopesAdd(c: Container, a: seq<Locale>, b: seq<Locale>)
    requires |a| > 0 && |b| > 0
    requires forall l :: l in a ==> l !in b
    ensures TranslationsDone(c, a + b) == TranslationsDone(c, a) + TranslationsDone(c, b)
    ensures TranslationsPending(c, a + b) == TranslationsPending(c, a) + TranslationsPending(c, b)
    ensures TranslationsNew(c, a + b) == TranslationsNew(c, a) + TranslationsNew(c, b)
    ensures TranslationsTotal(c, a + b) == TranslationsTotal(c, a) + TranslationsTotal(c, b)
    ensures WordsPending(c, a + b) == WordsPending(c, a) + WordsPending(c, b)
    ensures WordsNew(c, a + b) == WordsNew(c, a) + WordsNew(c, b)
  {
    var ts := ActiveTranslations(c);
    var sa, sb := Scope(c, a), Scope(c, b);
    assert Scope(c, a + b) == sa + sb;
    assert sa !! sb;
    forall state, m | true
      ensures Sum(ts, state, Scope(c, a + b), m) == Sum(ts, state, sa, m) + Sum(ts, state, sb, m)
    {
      SumScopeUnion(ts, state, sa, sb, m);
    }
    forall state | true
      ensures Fetch(c, a + b, state, TranslationsCount) == Fetch(c, a, state, TranslationsCount) + Fetch(c, b, state, TranslationsCount)
      ensures Fetch(c, a + b, state, WordsCount) == Fetch(c, a, state, WordsCount) + Fetch(c, b, state, WordsCount)
    {
      FetchIsSum(c, a + b, state);
      FetchIsSum(c, a, state);
      FetchIsSum(c, b, state);
    }
  }

  /** Naming a locale no active Translation targets (one the container does
      not target, say) is not an error: it contributes zero. */
  lemma UntargetedLocaleContributesZero(c: Container, locales: seq<Locale>, l: Locale)
    requires |locales| > 0
    requires forall i :: 0 <= i < |ActiveTranslations(c)| ==> ActiveTranslations(c)[i].targetLocale != l
    ensures StatsFor(c, locales + [l]) == StatsFor(c, locales)
    ensures StatsFor(c, [l]) == map[]
    ensures TranslationsTotal(c, [l]) == 0
  {
    var ts := ActiveTranslations(c);
    assert Scope(c, locales + [l]) == Scope(c, locales) + {l};
    assert Scope(c, [l]) == {} + {l};
    forall state, m | true
      ensures Sum(ts, state, Scope(c, locales + [l]), m) == Sum(ts, state, Scope(c, locales), m)
      ensures Sum(ts, state, Scope(c, [l]), m) == 0
    {
      SumUnusedLocale(ts, state, Scope(c, locales), l, m);
      SumUnusedLocale(ts, state, {}, l, m);
      SumEmptyScope(ts, state, m);
    }
    SameSumsSameStats(ts, Scope(c, locales + [l]), ts, Scope(c, locales));
    var empty := StatsFor(c, [l]);
    forall s ensures s !in empty {
      SumZeroIff(ts, s, Scope(c, [l]));
    }
    assert empty == map[];
  }

  /** Two walks whose sums agree on every state and measure have the same
      snapshot. */
  lemma SameSumsSameStats(ts: seq<Translation>, scope: set<Locale>, ts': seq<Translation>, scope': set<Locale>)
    requires forall state, m :: Sum(ts, state, scope, m) == Sum(ts', state, scope', m)
    ensures StatsOf(ts, scope) == StatsOf(ts', scope')
  {
  }

  /** The snapshot depends only on which Translations the active Keys hold,
      not on the order in which they are walked. */
  lemma WalkOrderIrrelevant(c: Container, c': Container, locales: seq<Locale>)
    requires c'.targeted == c.targeted
    requires multiset(ActiveTranslations(c)) == multiset(ActiveTranslations(c'))
    ensures StatsFor(c, locales) == StatsFor(c', locales)
  {
    var ts, ts' := ActiveTranslations(c), ActiveTranslations(c');
    var scope := Scope(c, locales);
    assert Scope(c', locales) == scope;
    forall state, m | true ensures Sum(ts, state, scope, m) == Sum(ts', state, scope, m) {
      SumPermutation(ts, ts', state, scope, m);
    }
    SameSumsSameStats(ts, scope, ts', scope);
  }

  /** Containers with the same active Keys and the same targeting answer
      every query alike, whatever their kind: an Article answers as the
      Commit holding its active Keys. */
  lemma ArticleAnswersAsCommit(a: Container, locales: seq<Locale>)
    requires a.Article?
    ensures var m := Commit(ActiveKeys(a), a.targeted);
            && StatsFor(a, locales) == StatsFor(m, locales)
            && StringsTotal(a) == StringsTotal(m)
            && TranslationsTotal(a, locales) == TranslationsTotal(m, locales)
  {
  }

  /** What a single Translation changes: inserting `t` anywhere into the
      walked Translations raises each stored count of its state by `t`'s
      contribution when it is in scope, and changes nothing otherwise. */
  lemma InsertedTranslationEffect(c: Container, c': Container, pre: seq<Translation>, t: Translation, post: seq<Translation>,
                                  locales: seq<Locale>, state: State, field: Field)
    requires c'.targeted == c.targeted
    requires ActiveTranslations(c) == pre + post
    requires ActiveTranslations(c') == pre + [t] + post
    ensures Fetch(c', locales, state, field) == Fetch(c, locales, state, field) + Added(t, state, Scope(c, locales), field)
  {
    assert Scope(c', locales) == Scope(c, locales);
    StatsInsert(pre, t, post, Scope(c, locales), state, field);
  }

  /** The same, on the snapshot of the walked Translations. */
  lemma StatsInsert(pre: seq<Translation>, t: Translation, post: seq<Translation>, scope: set<Locale>, state: State, field: Field)
    ensures FetchStat(StatsOf(pre + [t] + post, scope), state, field, 0)
         == FetchStat(StatsOf(pre + post, scope), state, field, 0) + Added(t, state, scope, field)
  {
    SumZeroIff(pre + post, state, scope);
    SumZeroIff(pre + [t] + post, state, scope);
    match field
    case TranslationsCount =>
      SumInsert(pre, t, post, state, scope, TranslationCount);
    case WordsCount =>
      SumInsert(pre, t, post, state, scope, WordCount);
    case OtherField(_) =>
  }

  /** Adding a base Translation anywhere, to a Commit or to an Article,
      changes no query, even when the Translation is approved. */
  lemma BaseTranslationNeverCounts(c: Container, p: Slot, t: Translation, locales: seq<Locale>, state: State, field: Field)
    requires ValidSlot(c, p)
    requires IsBase(t)
    ensures Fetch(InsertTranslation(c, p, t), locales, state, field) == Fetch(c, locales, state, field)
  {
    InsertionChangesOnlyItsState(c, p, t, locales, state, field);
  }

  /** Adding a Translation in a locale the container does not require
      changes no query without locale arguments, whatever the Translation's
      state. */
  lemma OptionalLocaleExcludedByDefault(c: Container, p: Slot, t: Translation, state: State, field: Field)
    requires ValidSlot(c, p)
    requires t.targetLocale !in c.targeted || !c.targeted[t.targetLocale]
    ensures Fetch(InsertTranslation(c, p, t), [], state, field) == Fetch(c, [], state, field)
  {
    InsertionChangesOnlyItsState(c, p, t, [], state, field);
  }

  /** Adding a non-base Translation to an active Key in a locale named
      explicitly counts it once, in its own state, whether that locale is
      required, optional or not targeted at all. */
  lemma ExplicitLocaleCounts(c: Container, p: Slot, t: Translation, locales: seq<Locale>)
    requires ValidSlot(c, p) && Walked(c, p)
    requires !IsBase(t) && t.targetLocale in locales
    ensures TranslationsTotal(InsertTranslation(c, p, t), locales) == TranslationsTotal(c, locales) + 1
    ensures Fetch(InsertTranslation(c, p, t), locales, Classify(t), TranslationsCount)
         == Fetch(c, locales, Classify(t), TranslationsCount) + 1
  {
    InsertionChangesOnlyItsState(c, p, t, locales, Approved, TranslationsCount);
    InsertionChangesOnlyItsState(c, p, t, locales, Pending, TranslationsCount);
    InsertionChangesOnlyItsState(c, p, t, locales, New, TranslationsCount);
  }

  /** What `t` adds to `field` of `state`'s bucket in `scope`. */
  function Added(t: Translation, state: State, scope: set<Locale>, field: Field): nat
  {
    if !CountsAs(t, state, scope) then 0
    else
      match field
      case TranslationsCount => 1
      case WordsCount => t.words
      case OtherField(_) => 0
  }

  /** Adding `t` at a slot changes a query by `t`'s own contribution to it
      when the slot's Key is active, and not at all otherwise. */
  lemma InsertionChangesOnlyItsState(c: Container, p: Slot, t: Translation, locales: seq<Locale>, state: State, field: Field)
    requires ValidSlot(c, p)
    ensures Fetch(InsertTranslation(c, p, t), locales, state, field)
         == Fetch(c, locales, state, field) + (if Walked(c, p) then Added(t, state, Scope(c, locales), field) else 0)
  {
    var c' := InsertTranslation(c, p, t);
    if Walked(c, p) {
      InsertTranslationWalk(c, p, t);
      InsertedTranslationEffect(c, c', WalkBefore(c, p), t, WalkAfter(c, p), locales, state, field);
    } else {
      UnwalkedInsertIgnored(c, p, t);
      assert Scope(c', locales) == Scope(c, locales);
      assert StatsFor(c', locales) == StatsFor(c, locales);
    }
  }
}
