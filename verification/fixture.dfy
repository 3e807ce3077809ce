/** The worked scenario of the statistics: targeted locales fr (required),
    de (optional) and ja (required), base locale en; two active Keys whose
    source copy is "hello world" (2 words) and "whatsup" (1 word), each with
    a base en Translation and fr, de, ja Translations; plus, in the Article,
    one Key without an index and one Key in an inactive Section. */
module Fixture {
  import opened Wrappers
  import opened Translations
  import opened Containers
  import opened Counter
  import opened Queries

  const Targeted: map<Locale, bool> := map["fr" := true, "de" := false, "ja" := true]

  function Tr(locale: Locale, words: nat, approved: Option<bool>, hasCopy: bool): Translation
  {
    Translation(locale, "en", approved, hasCopy, words)
  }

  /** Translations of the "hello world" Key. */
  const HelloTranslations: seq<Translation> := [
    Tr("en", 2, Some(true), true),
    Tr("fr", 2, Some(true), true),
    Tr("de", 2, Some(true), true),
    Tr("ja", 2, None, true)
  ]

  /** Translations of the "whatsup" Key. */
  const WhatsupTranslations: seq<Translation> := [
    Tr("en", 1, Some(true), true),
    Tr("fr", 1, Some(true), true),
    Tr("de", 1, Some(false), true),
    Tr("ja", 1, None, false)
  ]

  const FixtureArticle := Article(
    [ Section(true, [ Key(Some(0), HelloTranslations),
                      Key(Some(1), WhatsupTranslations),
                      Key(None, [Tr("ja", 2, None, true)]) ]),
      Section(false, [ Key(Some(0), [Tr("ja", 1, None, false)]) ]) ],
    Targeted)

  /** A Commit's Keys carry no Section index; all of them are active. */
  const FixtureCommit := Commit([Key(None, HelloTranslations), Key(None, WhatsupTranslations)], Targeted)

  lemma FixtureWalk()
    ensures ActiveKeys(FixtureArticle) == [Key(Some(0), HelloTranslations), Key(Some(1), WhatsupTranslations)]
    ensures ActiveTranslations(FixtureArticle) == HelloTranslations + WhatsupTranslations
    ensures ActiveTranslations(FixtureCommit) == HelloTranslations + WhatsupTranslations
  {
    ArticleActiveKeys();
    TwoKeysWalk([Key(Some(0), HelloTranslations), Key(Some(1), WhatsupTranslations)]);
    TwoKeysWalk(FixtureCommit.keys);
  }

  lemma ArticleActiveKeys()
    ensures ActiveKeys(FixtureArticle) == [Key(Some(0), HelloTranslations), Key(Some(1), WhatsupTranslations)]
  {
    var secs := FixtureArticle.sections;
    ActiveSectionKeys();
    assert SectionsActiveKeys(secs[..1]) == IndexedKeys(secs[0].keys) by {
      assert secs[..1][..0] == [];
    }
    assert secs[..1] == secs[..|secs| - 1];
  }

  /** Of the active Section's three Keys, the one without an index drops out. */
  lemma ActiveSectionKeys()
    ensures IndexedKeys(FixtureArticle.sections[0].keys) == [Key(Some(0), HelloTranslations), Key(Some(1), WhatsupTranslations)]
  {
    var ks := FixtureArticle.sections[0].keys;
    assert IndexedKeys(ks[..1]) == [ks[0]] by {
      assert ks[..1][..0] == [];
    }
    assert IndexedKeys(ks[..2]) == [ks[0], ks[1]] by {
      assert ks[..2][..1] == ks[..1];
    }
    assert ks[..2] == ks[..|ks| - 1];
  }

  lemma TwoKeysWalk(ks: seq<Key>)
    requires |ks| == 2
    ensures KeysTranslations(ks) == ks[0].translations + ks[1].translations
  {
    assert KeysTranslations(ks[..1]) == ks[0].translations by {
      assert ks[..1][..0] == [];
    }
    assert ks[..1] == ks[..|ks| - 1];
  }

  /** A sum over four Translations, element by element. */
  lemma SumOfFour(ts: seq<Translation>, state: State, scope: set<Locale>, m: Measure)
    requires |ts| == 4
    ensures Sum(ts, state, scope, m)
         == Weighted(ts[0], state, scope, m) + Weighted(ts[1], state, scope, m)
          + Weighted(ts[2], state, scope, m) + Weighted(ts[3], state, scope, m)
  {
    assert ts[..1][..0] == [];
    assert Sum(ts[..1], state, scope, m) == Weighted(ts[0], state, scope, m);
    assert ts[..2][..1] == ts[..1];
    assert Sum(ts[..2], state, scope, m) == Sum(ts[..1], state, scope, m) + Weighted(ts[1], state, scope, m);
    assert ts[..3][..2] == ts[..2];
    assert Sum(ts[..3], state, scope, m) == Sum(ts[..2], state, scope, m) + Weighted(ts[2], state, scope, m);
    assert ts[..3] == ts[..|ts| - 1];
  }

  /** The fixture's walk, weighted Translation by Translation (the base
      Translations weigh nothing and are left out). */
  function FixtureWeights(state: State, scope: set<Locale>, m: Measure): nat
  {
    var h, w := HelloTranslations, WhatsupTranslations;
    Weighted(h[1], state, scope, m) + Weighted(h[2], state, scope, m) + Weighted(h[3], state, scope, m)
      + Weighted(w[1], state, scope, m) + Weighted(w[2], state, scope, m) + Weighted(w[3], state, scope, m)
  }

  /** Every accessor over the fixture, reduced to the fixture's Translations. */
  lemma FixtureFetch(c: Container, locales: seq<Locale>, scope: set<Locale>, state: State)
    requires c == FixtureArticle || c == FixtureCommit
    requires Scope(c, locales) == scope
    ensures Fetch(c, locales, state, TranslationsCount) == FixtureWeights(state, scope, TranslationCount)
    ensures Fetch(c, locales, state, WordsCount) == FixtureWeights(state, scope, WordCount)
  {
    FetchIsSum(c, locales, state);
    FixtureWalk();
    assert Weighted(HelloTranslations[0], state, scope, TranslationCount) == 0;
    assert Weighted(WhatsupTranslations[0], state, scope, TranslationCount) == 0;
    assert Weighted(HelloTranslations[0], state, scope, WordCount) == 0;
    assert Weighted(WhatsupTranslations[0], state, scope, WordCount) == 0;
    forall m | true
      ensures Sum(ActiveTranslations(c), state, scope, m) == FixtureWeights(state, scope, m)
    {
      SumAppend(HelloTranslations, WhatsupTranslations, state, scope, m);
      SumOfFour(HelloTranslations, state, scope, m);
      SumOfFour(WhatsupTranslations, state, scope, m);
    }
  }

  lemma RequiredWeights()
    ensures FixtureWeights(Approved, {"fr", "ja"}, TranslationCount) == 2
    ensures FixtureWeights(Approved, {"fr", "ja"}, WordCount) == 3
    ensures FixtureWeights(Pending, {"fr", "ja"}, TranslationCount) == 1
    ensures FixtureWeights(Pending, {"fr", "ja"}, WordCount) == 2
    ensures FixtureWeights(New, {"fr", "ja"}, TranslationCount) == 1
    ensures FixtureWeights(New, {"fr", "ja"}, WordCount) == 1
  {
  }

  lemma SingleLocaleWeights()
    ensures FixtureWeights(Approved, {"fr"}, TranslationCount) == 2
    ensures FixtureWeights(Pending, {"ja", "de"}, TranslationCount) == 2
    ensures FixtureWeights(New, {"ja"}, TranslationCount) == 1
  {
  }

  lemma AllLocaleWeights()
    ensures FixtureWeights(Pending, {"fr", "de", "ja"}, TranslationCount) == 2
    ensures FixtureWeights(New, {"fr", "de", "ja"}, TranslationCount) == 1
    ensures FixtureWeights(Pending, {"fr", "de", "ja"}, WordCount) == 3
    ensures FixtureWeights(New, {"fr", "de", "ja"}, WordCount) == 1
  {
  }

  lemma UntargetedWeights()
    ensures FixtureWeights(Approved, {"fr", "de", "ja", "tr"}, TranslationCount) == 3
    ensures FixtureWeights(Pending, {"fr", "de", "ja", "tr"}, TranslationCount) == 2
    ensures FixtureWeights(New, {"fr", "de", "ja", "tr"}, TranslationCount) == 1
    ensures FixtureWeights(Approved, {"tr"}, TranslationCount) == 0
    ensures FixtureWeights(Pending, {"tr"}, TranslationCount) == 0
    ensures FixtureWeights(New, {"tr"}, TranslationCount) == 0
  {
  }

  lemma RequiredScope(c: Container)
    requires c == FixtureArticle || c == FixtureCommit
    ensures Scope(c, []) == {"fr", "ja"}
  {
  }

  /** Without locale arguments only fr and ja count: the de Translations,
      the base Translations and the inactive Keys are left out. */
  lemma FixtureStatsWithoutLocales(c: Container)
    requires c == FixtureArticle || c == FixtureCommit
    ensures StatsFor(c, []) == map[Approved := Tally(2, 3), Pending := Tally(1, 2), New := Tally(1, 1)]
    ensures StringsTotal(c) == 2
    ensures TranslationsDone(c, []) == 2
    ensures TranslationsNotDone(c, []) == 2
    ensures TranslationsPending(c, []) == 1
    ensures TranslationsNew(c, []) == 1
    ensures TranslationsTotal(c, []) == 4
    ensures WordsPending(c, []) == 2
    ensures WordsNew(c, []) == 1
  {
    FixtureWalk();
    RequiredScope(c);
    RequiredWeights();
    FixtureFetch(c, [], {"fr", "ja"}, Approved);
    FixtureFetch(c, [], {"fr", "ja"}, Pending);
    FixtureFetch(c, [], {"fr", "ja"}, New);
    FixtureSnapshot(c);
  }

  lemma FixtureSnapshot(c: Container)
    requires c == FixtureArticle || c == FixtureCommit
    requires Fetch(c, [], Approved, TranslationsCount) == 2 && Fetch(c, [], Approved, WordsCount) == 3
    requires Fetch(c, [], Pending, TranslationsCount) == 1 && Fetch(c, [], Pending, WordsCount) == 2
    requires Fetch(c, [], New, TranslationsCount) == 1 && Fetch(c, [], New, WordsCount) == 1
    ensures StatsFor(c, []) == map[Approved := Tally(2, 3), Pending := Tally(1, 2), New := Tally(1, 1)]
  {
    var ts, scope := ActiveTranslations(c), Scope(c, []);
    var r := StatsOf(ts, scope);
    var expected := map[Approved := Tally(2, 3), Pending := Tally(1, 2), New := Tally(1, 1)];
    forall s ensures s in r && r[s] == expected[s] {
      FetchIsSum(c, [], s);
      assert s == Approved || s == Pending || s == New;
    }
    assert r == expected;
  }

  /** Explicit locale arguments count the optional de as well, and the
      untargeted tr contributes nothing. */
  lemma FixtureStatsWithLocales(c: Container)
    requires c == FixtureArticle || c == FixtureCommit
    ensures TranslationsDone(c, ["fr"]) == 2
    ensures TranslationsPending(c, ["ja", "de"]) == 2
    ensures TranslationsNew(c, ["ja"]) == 1
    ensures TranslationsNotDone(c, ["ja", "fr", "de"]) == 3
    ensures TranslationsTotal(c, ["fr", "de", "ja", "tr"]) == 6
    ensures TranslationsTotal(c, ["tr"]) == 0
    ensures WordsPending(c, ["fr", "de", "ja"]) == 3
    ensures WordsNew(c, ["fr", "de", "ja"]) == 1
  {
    SingleLocaleQueries(c);
    AllLocaleQueries(c);
    UntargetedQueries(c);
  }

  lemma SingleLocaleQueries(c: Container)
    requires c == FixtureArticle || c == FixtureCommit
    ensures TranslationsDone(c, ["fr"]) == 2
    ensures TranslationsPending(c, ["ja", "de"]) == 2
    ensures TranslationsNew(c, ["ja"]) == 1
  {
    SingleLocaleWeights();
    assert Scope(c, ["fr"]) == {"fr"};
    assert Scope(c, ["ja", "de"]) == {"ja", "de"};
    assert Scope(c, ["ja"]) == {"ja"};
    FixtureFetch(c, ["fr"], {"fr"}, Approved);
    FixtureFetch(c, ["ja", "de"], {"ja", "de"}, Pending);
    FixtureFetch(c, ["ja"], {"ja"}, New);
  }

  lemma AllLocaleQueries(c: Container)
    requires c == FixtureArticle || c == FixtureCommit
    ensures TranslationsNotDone(c, ["ja", "fr", "de"]) == 3
    ensures WordsPending(c, ["fr", "de", "ja"]) == 3
    ensures WordsNew(c, ["fr", "de", "ja"]) == 1
  {
    AllLocaleWeights();
    assert Scope(c, ["ja", "fr", "de"]) == {"fr", "de", "ja"};
    assert Scope(c, ["fr", "de", "ja"]) == {"fr", "de", "ja"};
    FixtureFetch(c, ["ja", "fr", "de"], {"fr", "de", "ja"}, Pending);
    FixtureFetch(c, ["ja", "fr", "de"], {"fr", "de", "ja"}, New);
    FixtureFetch(c, ["fr", "de", "ja"], {"fr", "de", "ja"}, Pending);
    FixtureFetch(c, ["fr", "de", "ja"], {"fr", "de", "ja"}, New);
  }

  lemma UntargetedQueries(c: Container)
    requires c == FixtureArticle || c == FixtureCommit
    ensures TranslationsTotal(c, ["fr", "de", "ja", "tr"]) == 6
    ensures TranslationsTotal(c, ["tr"]) == 0
  {
    UntargetedWeights();
    assert Scope(c, ["fr", "de", "ja", "tr"]) == {"fr", "de", "ja", "tr"};
    assert Scope(c, ["tr"]) == {"tr"};
    FixtureFetch(c, ["fr", "de", "ja", "tr"], {"fr", "de", "ja", "tr"}, Approved);
    FixtureFetch(c, ["fr", "de", "ja", "tr"], {"fr", "de", "ja", "tr"}, Pending);
    FixtureFetch(c, ["fr", "de", "ja", "tr"], {"fr", "de", "ja", "tr"}, New);
    FixtureFetch(c, ["tr"], {"tr"}, Approved);
    FixtureFetch(c, ["tr"], {"tr"}, Pending);
    FixtureFetch(c, ["tr"], {"tr"}, New);
  }

  /** The stubbed snapshot of the lookup examples: approved (1, 2) and
      pending (1, 1), no bucket for new. */
  const Stub: Stats := map[Approved := Tally(1, 2), Pending := Tally(1, 1)]

  lemma FetchStatExamples(default: int)
    ensures FetchStat(Stub, New, TranslationsCount, default) == default
    ensures FetchStat(Stub, Approved, OtherField("fake_count"), 0) == 0
    ensures FetchStat(Stub, Approved, WordsCount, 0) == 2
  {
  }
}
