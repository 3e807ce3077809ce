/** The stat counter: per completion state, the number of Translations and
    the number of source words, over the Translations whose target locale is
    in a given scope. Base Translations never count. */
module Counter {
  import opened Translations
  import opened Containers

  /** A (translation count, word count) pair. */
  datatype Tally = Tally(translations: nat, words: nat)

  const AllStates: set<State> := {Approved, Pending, New}

  /** The snapshot: each state that at least one scoped Translation is in,
      mapped to its tally. A state no scoped Translation is in is absent. */
  type Stats = map<State, Tally>

  /** The two quantities the counter sums. */
  datatype Measure = TranslationCount | WordCount

  /** What one counted Translation adds to a measure. */
  function Weight(t: Translation, m: Measure): nat
  {
    match m
    case TranslationCount => 1
    case WordCount => t.words
  }

  /** Whether `t` is translation work counted in `scope`. */
  predicate InScope(t: Translation, scope: set<Locale>)
  {
    !IsBase(t) && t.targetLocale in scope
  }

  /** Whether `t` counts towards `state` in `scope`. */
  predicate CountsAs(t: Translation, state: State, scope: set<Locale>)
  {
    InScope(t, scope) && Classify(t) == state
  }

  /** What `t` adds to the sum of measure `m` for `state` in `scope`. */
  function Weighted(t: Translation, state: State, scope: set<Locale>, m: Measure): nat
  {
    if CountsAs(t, state, scope) then Weight(t, m) else 0
  }

  /** The measure `m` summed over the Translations of `ts` counted towards
      `state`. */
  function Sum(ts: seq<Translation>, state: State, scope: set<Locale>, m: Measure): (r: nat)
    ensures m == TranslationCount ==> r <= |ts|
    decreases |ts|
  {
    if ts == [] then 0
    else
      Sum(ts[..|ts| - 1], state, scope, m) + Weighted(ts[|ts| - 1], state, scope, m)
  }

  /** The measure `m` summed over all scoped Translations of `ts`, whatever
      their state. */
  function ScopedSum(ts: seq<Translation>, scope: set<Locale>, m: Measure): nat
    decreases |ts|
  {
    if ts == [] then 0
    else
      var t := ts[|ts| - 1];
      ScopedSum(ts[..|ts| - 1], scope, m) + (if InScope(t, scope) then Weight(t, m) else 0)
  }

  /** The tally of `state` over `ts`. */
  function TallyOf(ts: seq<Translation>, state: State, scope: set<Locale>): Tally
  {
    Tally(Sum(ts, state, scope, TranslationCount), Sum(ts, state, scope, WordCount))
  }

  /** The snapshot of `ts` for `scope`: a bucket for every state whose
      translation count is positive. */
  function StatsOf(ts: seq<Translation>, scope: set<Locale>): Stats
  {
    map s | s in AllStates && Sum(ts, s, scope, TranslationCount) > 0 :: TallyOf(ts, s, scope)
  }

  /** A state has a bucket exactly when some scoped non-base Translation is
      in it, and the bucket holds that state's tally. */
  lemma StatsOfBuckets(ts: seq<Translation>, scope: set<Locale>, s: State)
    ensures s in StatsOf(ts, scope) <==> exists i :: 0 <= i < |ts| && CountsAs(ts[i], s, scope)
    ensures s in StatsOf(ts, scope) ==> StatsOf(ts, scope)[s] == TallyOf(ts, s, scope)
  {
    SumZeroIff(ts, s, scope);
  }

  /** The counting walk: one pass over the active Keys and their
      Translations, accumulating the three tallies side by side. It agrees
      with the snapshot defined state by state. */
  method ComputeStats(c: Container, scope: set<Locale>) returns (r: Stats)
    ensures r == StatsOf(ActiveTranslations(c), scope)
  {
    var keys := ActiveKeys(c);
    var approved, pending, notStarted := Tally(0, 0), Tally(0, 0), Tally(0, 0);
    var i := 0;
    while i < |keys|
      invariant 0 <= i <= |keys|
      invariant approved == TallyOf(KeysTranslations(keys[..i]), Approved, scope)
      invariant pending == TallyOf(KeysTranslations(keys[..i]), Pending, scope)
      invariant notStarted == TallyOf(KeysTranslations(keys[..i]), New, scope)
    {
      approved, pending, notStarted := CountKey(KeysTranslations(keys[..i]), keys[i].translations, scope, approved, pending, notStarted);
      assert keys[..i + 1][..i] == keys[..i];
      i := i + 1;
    }
    assert keys[..i] == keys;
    r := map[];
    if approved.translations > 0 { r := r[Approved := approved]; }
    if pending.translations > 0 { r := r[Pending := pending]; }
    if notStarted.translations > 0 { r := r[New := notStarted]; }
    forall s ensures (s in r <==> TallyOf(ActiveTranslations(c), s, scope).translations > 0)
                  && (s in r ==> r[s] == TallyOf(ActiveTranslations(c), s, scope)) {
      match s
      case Approved =>
      case Pending =>
      case New =>
    }
    StatsFromTallies(ActiveTranslations(c), scope, r);
  }

  /** The inner loop of the walk: adds the Translations `ts` of one Key to
      the tallies of the Translations `done` walked so far. */
  method CountKey(done: seq<Translation>, ts: seq<Translation>, scope: set<Locale>,
                  approved0: Tally, pending0: Tally, notStarted0: Tally)
    returns (approved: Tally, pending: Tally, notStarted: Tally)
    requires approved0 == TallyOf(done, Approved, scope)
    requires pending0 == TallyOf(done, Pending, scope)
    requires notStarted0 == TallyOf(done, New, scope)
    ensures approved == TallyOf(done + ts, Approved, scope)
    ensures pending == TallyOf(done + ts, Pending, scope)
    ensures notStarted == TallyOf(done + ts, New, scope)
  {
    approved, pending, notStarted := approved0, pending0, notStarted0;
    var j := 0;
    assert done + ts[..j] == done;
    while j < |ts|
      invariant 0 <= j <= |ts|
      invariant approved == TallyOf(done + ts[..j], Approved, scope)
      invariant pending == TallyOf(done + ts[..j], Pending, scope)
      invariant notStarted == TallyOf(done + ts[..j], New, scope)
    {
      var t := ts[j];
      assert (done + ts[..j + 1])[..|done + ts[..j + 1]| - 1] == done + ts[..j];
      assert (done + ts[..j + 1])[|done + ts[..j + 1]| - 1] == t;
      if InScope(t, scope) {
        match Classify(t)
        case Approved => approved := Tally(approved.translations + 1, approved.words + t.words);
        case Pending => pending := Tally(pending.translations + 1, pending.words + t.words);
        case New => notStarted := Tally(notStarted.translations + 1, notStarted.words + t.words);
      }
      j := j + 1;
    }
    assert ts[..j] == ts;
  }

  /** A map holding exactly the non-empty tallies of the three states is
      the snapshot. */
  lemma StatsFromTallies(ts: seq<Translation>, scope: set<Locale>, r: Stats)
    requires forall s :: s in r <==> TallyOf(ts, s, scope).translations > 0
    requires forall s :: s in r ==> r[s] == TallyOf(ts, s, scope)
    ensures r == StatsOf(ts, scope)
  {
    var expected := StatsOf(ts, scope);
    forall s ensures (s in r <==> s in expected) && (s in r ==> r[s] == expected[s]) {
      SumZeroIff(ts, s, scope);
    }
  }

  /** No Translation counts towards a state exactly when its translation
      count is zero, and then its word count is zero as well. */
  lemma {:induction false} SumZeroIff(ts: seq<Translation>, state: State, scope: set<Locale>)
    ensures Sum(ts, state, scope, TranslationCount) == 0
        <==> forall i :: 0 <= i < |ts| ==> !CountsAs(ts[i], state, scope)
    ensures Sum(ts, state, scope, TranslationCount) == 0 ==> Sum(ts, state, scope, WordCount) == 0
    decreases |ts|
  {
    if ts != [] {
      var ts' := ts[..|ts| - 1];
      SumZeroIff(ts', state, scope);
      assert forall i :: 0 <= i < |ts'| ==> ts'[i] == ts[i];
    }
  }

  /** Sums add up over concatenation. */
  lemma {:induction false} SumAppend(a: seq<Translation>, b: seq<Translation>, state: State, scope: set<Locale>, m: Measure)
    ensures Sum(a + b, state, scope, m) == Sum(a, state, scope, m) + Sum(b, state, scope, m)
    decreases |b|
  {
    if b == [] {
      assert a + b == a;
    } else {
      var b' := b[..|b| - 1];
      assert (a + b)[..|a + b| - 1] == a + b';
      assert (a + b)[|a + b| - 1] == b[|b| - 1];
      SumAppend(a, b', state, scope, m);
    }
  }

  /** Inserting one Translation anywhere changes a sum by exactly that
      Translation's weight when it counts towards the state, and not at all
      otherwise. */
  lemma SumInsert(a: seq<Translation>, t: Translation, b: seq<Translation>, state: State, scope: set<Locale>, m: Measure)
    ensures Sum(a + [t] + b, state, scope, m) == Sum(a + b, state, scope, m) + Weighted(t, state, scope, m)
  {
    assert [t][..0] == [];
    SumAppend(a + [t], b, state, scope, m);
    SumAppend(a, [t], state, scope, m);
    SumAppend(a, b, state, scope, m);
  }

  /** The sums do not depend on the order of the walk: any rearrangement of
      the same Translations gives the same sum. */
  lemma {:induction false} SumPermutation(a: seq<Translation>, b: seq<Translation>, state: State, scope: set<Locale>, m: Measure)
    requires multiset(a) == multiset(b)
    ensures Sum(a, state, scope, m) == Sum(b, state, scope, m)
    decreases |a|
  {
    if a == [] {
      assert |b| == |multiset(b)| == 0;
    } else {
      var x := a[|a| - 1];
      assert x in multiset(b) by {
        assert x in multiset(a);
      }
      var j :| 0 <= j < |b| && b[j] == x;
      MultisetRemoveLast(a, b, j);
      SumPermutation(a[..|a| - 1], b[..j] + b[j + 1..], state, scope, m);
      SumInsert(b[..j], x, b[j + 1..], state, scope, m);
      assert b[..j] + [x] + b[j + 1..] == b;
    }
  }

  /** Removing the last element of `a` and an equal element of `b` keeps two
      permutations permutations. */
  lemma MultisetRemoveLast<T>(a: seq<T>, b: seq<T>, j: nat)
    requires multiset(a) == multiset(b)
    requires a != [] && j < |b| && b[j] == a[|a| - 1]
    ensures multiset(b[..j] + b[j + 1..]) == multiset(a[..|a| - 1])
  {
    var a', b', x := a[..|a| - 1], b[..j] + b[j + 1..], b[j];
    assert b == b[..j] + [x] + b[j + 1..];
    assert a == a' + [x];
    assert multiset(b') + multiset([x]) == multiset(a') + multiset([x]);
    forall y ensures multiset(b')[y] == multiset(a')[y] {
      assert (multiset(b') + multiset([x]))[y] == (multiset(a') + multiset([x]))[y];
    }
  }

  /** Every scoped Translation lands in exactly one state: the three sums
      together count each scoped Translation once. */
  lemma {:induction false} StatesPartitionScope(ts: seq<Translation>, scope: set<Locale>, m: Measure)
    ensures Sum(ts, Approved, scope, m) + Sum(ts, Pending, scope, m) + Sum(ts, New, scope, m)
         == ScopedSum(ts, scope, m)
    decreases |ts|
  {
    if ts != [] {
      StatesPartitionScope(ts[..|ts| - 1], scope, m);
    }
  }

  /** Sums add up over disjoint locale scopes. */
  lemma {:induction false} SumScopeUnion(ts: seq<Translation>, state: State, a: set<Locale>, b: set<Locale>, m: Measure)
    requires a !! b
    ensures Sum(ts, state, a + b, m) == Sum(ts, state, a, m) + Sum(ts, state, b, m)
    decreases |ts|
  {
    if ts != [] {
      SumScopeUnion(ts[..|ts| - 1], state, a, b, m);
    }
  }

  /** Adding to the scope a locale no Translation targets changes nothing. */
  lemma {:induction false} SumUnusedLocale(ts: seq<Translation>, state: State, scope: set<Locale>, l: Locale, m: Measure)
    requires forall i :: 0 <= i < |ts| ==> ts[i].targetLocale != l
    ensures Sum(ts, state, scope + {l}, m) == Sum(ts, state, scope, m)
    decreases |ts|
  {
    if ts != [] {
      SumUnusedLocale(ts[..|ts| - 1], state, scope, l, m);
    }
  }

  /** An empty scope counts nothing. */
  lemma {:induction false} SumEmptyScope(ts: seq<Translation>, state: State, m: Measure)
    ensures Sum(ts, state, {}, m) == 0
    decreases |ts|
  {
    if ts != [] {
      SumEmptyScope(ts[..|ts| - 1], state, m);
    }
  }
}
