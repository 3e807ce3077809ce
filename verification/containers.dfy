/** Containers (Articles and Commits), their Keys, and which of those Keys
    are active.

    An Article organises its Keys in Sections; a Key of an Article is active
    when its Section is active and it has an index within the Section.
    A Commit holds its Keys directly and every one of them is active. */
module Containers {
  import opened Wrappers
  import opened Translations

  datatype Key = Key(indexInSection: Option<nat>, translations: seq<Translation>)

  datatype Section = Section(active: bool, keys: seq<Key>)

  /** The two container kinds share one statistics semantics; they differ
      only in how the active Keys are found. `targeted` maps each targeted
      locale to whether it is required (`true`) or optional (`false`). */
  datatype Container =
    | Article(sections: seq<Section>, targeted: map<Locale, bool>)
    | Commit(keys: seq<Key>, targeted: map<Locale, bool>)

  predicate Indexed(k: Key)
  {
    k.indexInSection.Some?
  }

  /** The Keys of `ks` that have an index, in order. */
  function IndexedKeys(ks: seq<Key>): (r: seq<Key>)
    ensures |r| <= |ks|
    ensures forall k :: k in r <==> k in ks && Indexed(k)
    decreases |ks|
  {
    if ks == [] then []
    else
      var rest := IndexedKeys(ks[..|ks| - 1]);
      if Indexed(ks[|ks| - 1]) then rest + [ks[|ks| - 1]] else rest
  }

  /** Each indexed Key is kept exactly as often as it occurs, and no other
      Key is kept at all. */
  lemma {:induction false} IndexedKeysCount(ks: seq<Key>, k: Key)
    ensures multiset(IndexedKeys(ks))[k] == if Indexed(k) then multiset(ks)[k] else 0
    decreases |ks|
  {
    if ks != [] {
      IndexedKeysCount(ks[..|ks| - 1], k);
      assert ks == ks[..|ks| - 1] + [ks[|ks| - 1]];
    }
  }

  /** The active Keys of one Section. */
  function SectionActiveKeys(s: Section): seq<Key>
  {
    if s.active then IndexedKeys(s.keys) else []
  }

  /** The active Keys of a sequence of Sections, Section by Section. */
  function SectionsActiveKeys(secs: seq<Section>): (r: seq<Key>)
    ensures forall k :: k in r ==> Indexed(k)
    decreases |secs|
  {
    if secs == [] then []
    else SectionsActiveKeys(secs[..|secs| - 1]) + SectionActiveKeys(secs[|secs| - 1])
  }

  /** Every indexed Key of every active Section is walked. */
  lemma {:induction false} SectionsActiveKeysComplete(secs: seq<Section>, i: nat, k: Key)
    requires i < |secs| && secs[i].active && k in secs[i].keys && Indexed(k)
    ensures k in SectionsActiveKeys(secs)
    decreases |secs|
  {
    if i < |secs| - 1 {
      SectionsActiveKeysComplete(secs[..|secs| - 1], i, k);
    }
  }

  /** Only Keys of active Sections are walked. */
  lemma {:induction false} SectionsActiveKeysSound(secs: seq<Section>, k: Key)
    requires k in SectionsActiveKeys(secs)
    ensures exists i :: 0 <= i < |secs| && secs[i].active && k in secs[i].keys
    decreases |secs|
  {
    var last := |secs| - 1;
    if k in SectionsActiveKeys(secs[..last]) {
      SectionsActiveKeysSound(secs[..last], k);
      var i :| 0 <= i < last && secs[..last][i].active && k in secs[..last][i].keys;
      assert secs[i] == secs[..last][i];
    } else {
      assert secs[last].active && k in secs[last].keys;
    }
  }

  /** How often `k` occurs as an indexed Key of an active Section of `secs`. */
  function ActiveOccurrences(secs: seq<Section>, k: Key): nat
    decreases |secs|
  {
    if secs == [] then 0
    else
      var s := secs[|secs| - 1];
      ActiveOccurrences(secs[..|secs| - 1], k) + (if s.active && Indexed(k) then multiset(s.keys)[k] else 0)
  }

  /** The walk yields each Key exactly as often as it occurs, indexed, in an
      active Section. */
  lemma {:induction false} SectionsActiveKeysCount(secs: seq<Section>, k: Key)
    ensures multiset(SectionsActiveKeys(secs))[k] == ActiveOccurrences(secs, k)
    decreases |secs|
  {
    if secs != [] {
      var init, s := secs[..|secs| - 1], secs[|secs| - 1];
      SectionsActiveKeysCount(init, k);
      IndexedKeysCount(s.keys, k);
      assert multiset(SectionsActiveKeys(secs)) == multiset(SectionsActiveKeys(init)) + multiset(SectionActiveKeys(s));
    }
  }

  function ActiveKeys(c: Container): seq<Key>
  {
    match c
    case Article(secs, _) => SectionsActiveKeys(secs)
    case Commit(ks, _) => ks
  }

  /** All Translations of the Keys `ks`, Key by Key. */
  function KeysTranslations(ks: seq<Key>): seq<Translation>
    decreases |ks|
  {
    if ks == [] then []
    else KeysTranslations(ks[..|ks| - 1]) + ks[|ks| - 1].translations
  }

  /** The Translations the statistics walk: those of the active Keys. */
  function ActiveTranslations(c: Container): seq<Translation>
  {
    KeysTranslations(ActiveKeys(c))
  }

  /** Where a Translation is added: position `at` of Key `key` of a
      Commit, or of Key `key` of Section `section` of an Article. */
  datatype Slot =
    | CommitSlot(key: nat, at: nat)
    | ArticleSlot(section: nat, key: nat, at: nat)

  predicate ValidSlot(c: Container, p: Slot)
  {
    match p
    case CommitSlot(ki, j) => c.Commit? && ki < |c.keys| && j <= |c.keys[ki].translations|
    case ArticleSlot(si, ki, j) =>
      c.Article? && si < |c.sections| && ki < |c.sections[si].keys| && j <= |c.sections[si].keys[ki].translations|
  }

  /** The Key a slot points into. */
  function SlotKey(c: Container, p: Slot): Key
    requires ValidSlot(c, p)
  {
    match p
    case CommitSlot(ki, _) => c.keys[ki]
    case ArticleSlot(si, ki, _) => c.sections[si].keys[ki]
  }

  /** A slot is walked when its Key is active: any Key of a Commit, an
      indexed Key of an active Section of an Article. */
  predicate Walked(c: Container, p: Slot)
    requires ValidSlot(c, p)
  {
    p.CommitSlot? || (c.sections[p.section].active && Indexed(SlotKey(c, p)))
  }

  /** The Key `k` with `t` inserted at position `j` of its Translations. */
  function WithTranslation(k: Key, j: nat, t: Translation): Key
    requires j <= |k.translations|
  {
    Key(k.indexInSection, k.translations[..j] + [t] + k.translations[j..])
  }

  /** The container `c` with `t` added at slot `p`. */
  function InsertTranslation(c: Container, p: Slot, t: Translation): (r: Container)
    requires ValidSlot(c, p)
    ensures r.Commit? == c.Commit? && r.targeted == c.targeted
    ensures ValidSlot(r, p) && SlotKey(r, p) == WithTranslation(SlotKey(c, p), p.at, t) && Walked(r, p) == Walked(c, p)
  {
    match p
    case CommitSlot(ki, j) => Commit(c.keys[ki := WithTranslation(c.keys[ki], j, t)], c.targeted)
    case ArticleSlot(si, ki, j) =>
      var s := c.sections[si];
      Article(c.sections[si := Section(s.active, s.keys[ki := WithTranslation(s.keys[ki], j, t)])], c.targeted)
  }

  /** The active Keys walked before and after a slot's Key. */
  function KeysBefore(c: Container, p: Slot): seq<Key>
    requires ValidSlot(c, p)
  {
    match p
    case CommitSlot(ki, _) => c.keys[..ki]
    case ArticleSlot(si, ki, _) => SectionsActiveKeys(c.sections[..si]) + IndexedKeys(c.sections[si].keys[..ki])
  }

  function KeysAfter(c: Container, p: Slot): seq<Key>
    requires ValidSlot(c, p)
  {
    match p
    case CommitSlot(ki, _) => c.keys[ki + 1..]
    case ArticleSlot(si, ki, _) => IndexedKeys(c.sections[si].keys[ki + 1..]) + SectionsActiveKeys(c.sections[si + 1..])
  }

  /** The walked Translations before and after slot `p`. */
  function WalkBefore(c: Container, p: Slot): seq<Translation>
    requires ValidSlot(c, p)
  {
    KeysTranslations(KeysBefore(c, p)) + SlotKey(c, p).translations[..p.at]
  }

  function WalkAfter(c: Container, p: Slot): seq<Translation>
    requires ValidSlot(c, p)
  {
    SlotKey(c, p).translations[p.at..] + KeysTranslations(KeysAfter(c, p))
  }

  /** Adding a Translation at a walked slot inserts it into the walked
      Translations, between those walked before and after the slot. */
  lemma InsertTranslationWalk(c: Container, p: Slot, t: Translation)
    requires ValidSlot(c, p) && Walked(c, p)
    ensures ActiveTranslations(c) == WalkBefore(c, p) + WalkAfter(c, p)
    ensures ActiveTranslations(InsertTranslation(c, p, t)) == WalkBefore(c, p) + [t] + WalkAfter(c, p)
  {
    ActiveKeysAroundSlot(c, p, t);
    KeyInsertWalk(KeysBefore(c, p), SlotKey(c, p), KeysAfter(c, p), p.at, t);
  }

  /** The Translations of a Key sequence, before and after inserting `t`
      into one of its Keys. */
  lemma KeyInsertWalk(before: seq<Key>, k: Key, after: seq<Key>, j: nat, t: Translation)
    requires j <= |k.translations|
    ensures KeysTranslations(before + [k] + after)
         == (KeysTranslations(before) + k.translations[..j]) + (k.translations[j..] + KeysTranslations(after))
    ensures KeysTranslations(before + [WithTranslation(k, j, t)] + after)
         == (KeysTranslations(before) + k.translations[..j]) + [t] + (k.translations[j..] + KeysTranslations(after))
  {
    KeyReplacedWalk(before, k, after);
    KeyReplacedWalk(before, WithTranslation(k, j, t), after);
    var ts := k.translations;
    assert ts == ts[..j] + ts[j..];
    Regroup(KeysTranslations(before), ts[..j], ts[j..], t, KeysTranslations(after));
  }

  /** A walked slot's Key sits between the same active Keys before and
      after the insertion. */
  lemma ActiveKeysAroundSlot(c: Container, p: Slot, t: Translation)
    requires ValidSlot(c, p) && Walked(c, p)
    ensures ActiveKeys(c) == KeysBefore(c, p) + [SlotKey(c, p)] + KeysAfter(c, p)
    ensures ActiveKeys(InsertTranslation(c, p, t)) == KeysBefore(c, p) + [SlotKey(InsertTranslation(c, p, t), p)] + KeysAfter(c, p)
  {
    if p.CommitSlot? {
      CommitSlotAround(c, p, t);
    } else {
      ArticleSlotAround(c, p, t);
    }
  }

  lemma CommitSlotAround(c: Container, p: Slot, t: Translation)
    requires ValidSlot(c, p) && p.CommitSlot?
    ensures ActiveKeys(c) == KeysBefore(c, p) + [SlotKey(c, p)] + KeysAfter(c, p)
    ensures ActiveKeys(InsertTranslation(c, p, t)) == KeysBefore(c, p) + [SlotKey(InsertTranslation(c, p, t), p)] + KeysAfter(c, p)
  {
    var ki := p.key;
    var k' := WithTranslation(c.keys[ki], p.at, t);
    assert InsertTranslation(c, p, t) == Commit(c.keys[ki := k'], c.targeted);
    CommitAroundKey(c.keys, ki, k');
  }

  lemma ArticleSlotAround(c: Container, p: Slot, t: Translation)
    requires ValidSlot(c, p) && p.ArticleSlot? && Walked(c, p)
    ensures ActiveKeys(c) == KeysBefore(c, p) + [SlotKey(c, p)] + KeysAfter(c, p)
    ensures ActiveKeys(InsertTranslation(c, p, t)) == KeysBefore(c, p) + [SlotKey(InsertTranslation(c, p, t), p)] + KeysAfter(c, p)
  {
    var si, ki := p.section, p.key;
    var s := c.sections[si];
    var k' := WithTranslation(s.keys[ki], p.at, t);
    var c' := Article(c.sections[si := Section(s.active, s.keys[ki := k'])], c.targeted);
    assert InsertTranslation(c, p, t) == c';
    assert SlotKey(c', p) == k';
    assert KeysBefore(c, p) == SectionsActiveKeys(c.sections[..si]) + IndexedKeys(s.keys[..ki]);
    assert KeysAfter(c, p) == IndexedKeys(s.keys[ki + 1..]) + SectionsActiveKeys(c.sections[si + 1..]);
    ArticleAroundKey(c.sections, si, ki, k');
  }

  /** Key `ki` of a Commit sits between the Keys before and after it, before
      and after it is replaced. */
  lemma CommitAroundKey(ks: seq<Key>, ki: nat, k': Key)
    requires ki < |ks|
    ensures ks == ks[..ki] + [ks[ki]] + ks[ki + 1..]
    ensures ks[ki := k'] == ks[..ki] + [k'] + ks[ki + 1..]
  {
  }

  /** An indexed Key `ki` of an active Section sits between the same active
      Keys, before and after it is replaced by an indexed Key. */
  lemma ArticleAroundKey(secs: seq<Section>, si: nat, ki: nat, k': Key)
    requires si < |secs| && ki < |secs[si].keys|
    requires secs[si].active && Indexed(secs[si].keys[ki]) && Indexed(k')
    ensures var s := secs[si];
            var before := SectionsActiveKeys(secs[..si]) + IndexedKeys(s.keys[..ki]);
            var after := IndexedKeys(s.keys[ki + 1..]) + SectionsActiveKeys(secs[si + 1..]);
            && SectionsActiveKeys(secs) == before + [s.keys[ki]] + after
            && SectionsActiveKeys(secs[si := Section(s.active, s.keys[ki := k'])]) == before + [k'] + after
  {
    var s := secs[si];
    ArticleKeyReplaced(secs, si, ki, s.keys[ki]);
    ArticleKeyReplaced(secs, si, ki, k');
    assert s.keys[ki := s.keys[ki]] == s.keys;
    assert secs[si := Section(s.active, s.keys[ki := s.keys[ki]])] == secs;
  }

  /** Putting an indexed Key `k'` in place of Key `ki` of active Section
      `si` puts it between the same active Keys. */
  lemma ArticleKeyReplaced(secs: seq<Section>, si: nat, ki: nat, k': Key)
    requires si < |secs| && ki < |secs[si].keys|
    requires secs[si].active && Indexed(k')
    ensures SectionsActiveKeys(secs[si := Section(secs[si].active, secs[si].keys[ki := k'])])
         == (SectionsActiveKeys(secs[..si]) + IndexedKeys(secs[si].keys[..ki])) + [k']
            + (IndexedKeys(secs[si].keys[ki + 1..]) + SectionsActiveKeys(secs[si + 1..]))
  {
    var ks := secs[si].keys;
    var s' := Section(true, ks[ki := k']);
    assert Section(secs[si].active, ks[ki := k']) == s';
    IndexedKeysReplaced(ks, ki, k');
    assert SectionActiveKeys(s') == IndexedKeys(ks[..ki]) + [k'] + IndexedKeys(ks[ki + 1..]);
    SectionSplit(secs, si, s');
    Regroup4(SectionsActiveKeys(secs[..si]), IndexedKeys(ks[..ki]), k', IndexedKeys(ks[ki + 1..]), SectionsActiveKeys(secs[si + 1..]));
  }

  /** Inserting an indexed Key anywhere adds exactly one indexed Key. */
  lemma IndexedKeyInserted(ks: seq<Key>, ki: nat, k: Key)
    requires ki <= |ks| && Indexed(k)
    ensures |IndexedKeys(ks[..ki] + [k] + ks[ki..])| == |IndexedKeys(ks)| + 1
  {
    var a, b := ks[..ki], ks[ki..];
    assert a + b == ks;
    var ia, ib := IndexedKeys(a), IndexedKeys(b);
    assert IndexedKeys([k]) == [k] by {
      assert [k][..0] == [];
    }
    IndexedKeysAppend(a + [k], b);
    IndexedKeysAppend(a, [k]);
    IndexedKeysAppend(a, b);
    assert |IndexedKeys(a + [k] + b)| == |ia| + 1 + |ib|;
  }

  /** Putting an indexed Key in place of Key `ki` keeps it between the same
      indexed Keys. */
  lemma IndexedKeysReplaced(ks: seq<Key>, ki: nat, k': Key)
    requires ki < |ks| && Indexed(k')
    ensures IndexedKeys(ks[ki := k']) == IndexedKeys(ks[..ki]) + [k'] + IndexedKeys(ks[ki + 1..])
  {
    assert ks[ki := k'] == ks[..ki] + [k'] + ks[ki + 1..];
    assert IndexedKeys([k']) == [k'] by {
      assert [k'][..0] == [];
    }
    IndexedKeysAppend(ks[..ki] + [k'], ks[ki + 1..]);
    IndexedKeysAppend(ks[..ki], [k']);
  }

  /** Adding a Translation at a slot that is not walked leaves the active
      Keys, and so every count, unchanged. */
  lemma UnwalkedInsertIgnored(c: Container, p: Slot, t: Translation)
    requires ValidSlot(c, p) && !Walked(c, p)
    ensures ActiveKeys(InsertTranslation(c, p, t)) == ActiveKeys(c)
  {
    var k := SlotKey(c, p);
    InactiveKeyTranslationsIgnored(c.sections, c.targeted, p.section, p.key, k.translations[..p.at] + [t] + k.translations[p.at..]);
  }

  lemma Regroup<T>(before: seq<T>, x: seq<T>, y: seq<T>, t: T, after: seq<T>)
    ensures before + (x + y) + after == (before + x) + (y + after)
    ensures before + (x + [t] + y) + after == (before + x) + [t] + (y + after)
  {
  }

  lemma Regroup4<T>(a: seq<T>, b: seq<T>, x: T, c: seq<T>, d: seq<T>)
    ensures a + (b + [x] + c) + d == (a + b) + [x] + (c + d)
  {
  }

  lemma KeyReplacedWalk(pre: seq<Key>, k: Key, post: seq<Key>)
    ensures KeysTranslations(pre + [k] + post) == KeysTranslations(pre) + k.translations + KeysTranslations(post)
  {
    assert [k][..0] == [];
    KeysTranslationsAppend(pre + [k], post);
    KeysTranslationsAppend(pre, [k]);
  }

  /** The locales the container requires; the default scope of every query. */
  function RequiredLocales(c: Container): (r: set<Locale>)
    ensures forall l :: l in r <==> l in c.targeted && c.targeted[l]
  {
    set l | l in c.targeted && c.targeted[l]
  }

  lemma {:induction false} IndexedKeysAppend(a: seq<Key>, b: seq<Key>)
    ensures IndexedKeys(a + b) == IndexedKeys(a) + IndexedKeys(b)
    decreases |b|
  {
    if b == [] {
      assert a + b == a;
    } else {
      var b' := b[..|b| - 1];
      assert (a + b)[..|a + b| - 1] == a + b';
      assert (a + b)[|a + b| - 1] == b[|b| - 1];
      IndexedKeysAppend(a, b');
    }
  }

  lemma {:induction false} SectionsActiveKeysAppend(a: seq<Section>, b: seq<Section>)
    ensures SectionsActiveKeys(a + b) == SectionsActiveKeys(a) + SectionsActiveKeys(b)
    decreases |b|
  {
    if b == [] {
      assert a + b == a;
    } else {
      var b' := b[..|b| - 1];
      assert (a + b)[..|a + b| - 1] == a + b';
      assert (a + b)[|a + b| - 1] == b[|b| - 1];
      SectionsActiveKeysAppend(a, b');
      var last := SectionActiveKeys(b[|b| - 1]);
      assert SectionsActiveKeys(a + b) == SectionsActiveKeys(a + b') + last;
      assert SectionsActiveKeys(b) == SectionsActiveKeys(b') + last;
      assert SectionsActiveKeys(a) + SectionsActiveKeys(b') + last == SectionsActiveKeys(a) + (SectionsActiveKeys(b') + last);
    }
  }

  lemma {:induction false} KeysTranslationsAppend(a: seq<Key>, b: seq<Key>)
    ensures KeysTranslations(a + b) == KeysTranslations(a) + KeysTranslations(b)
    decreases |b|
  {
    if b == [] {
      assert a + b == a;
    } else {
      var b' := b[..|b| - 1];
      assert (a + b)[..|a + b| - 1] == a + b';
      assert (a + b)[|a + b| - 1] == b[|b| - 1];
      KeysTranslationsAppend(a, b');
    }
  }

  /** Inserting a Key without an index into any Section of an Article does
      not change the Article's active Keys, whatever Translations it holds. */
  lemma UnindexedKeyIgnored(secs: seq<Section>, targeted: map<Locale, bool>, si: nat, ki: nat, k: Key)
    requires si < |secs| && ki <= |secs[si].keys|
    requires k.indexInSection == None
    ensures ActiveKeys(Article(secs[si := Section(secs[si].active, secs[si].keys[..ki] + [k] + secs[si].keys[ki..])], targeted))
         == ActiveKeys(Article(secs, targeted))
  {
    var s := secs[si];
    var s' := Section(s.active, s.keys[..ki] + [k] + s.keys[ki..]);
    assert IndexedKeys([k]) == [] by {
      assert [k][..0] == [];
    }
    IndexedKeysAppend(s.keys[..ki] + [k], s.keys[ki..]);
    IndexedKeysAppend(s.keys[..ki], [k]);
    IndexedKeysAppend(s.keys[..ki], s.keys[ki..]);
    assert s.keys[..ki] + s.keys[ki..] == s.keys;
    assert SectionActiveKeys(s') == SectionActiveKeys(s);
    SectionReplaced(secs, si, s');
  }

  /** Inserting an inactive Section anywhere into an Article does not change
      the Article's active Keys, whatever Keys it holds. */
  lemma InactiveSectionIgnored(secs: seq<Section>, targeted: map<Locale, bool>, i: nat, s: Section)
    requires i <= |secs|
    requires !s.active
    ensures ActiveKeys(Article(secs[..i] + [s] + secs[i..], targeted)) == ActiveKeys(Article(secs, targeted))
  {
    assert SectionsActiveKeys([s]) == [] by {
      assert [s][..0] == [];
    }
    var pre, post := secs[..i], secs[i..];
    calc {
      SectionsActiveKeys(pre + [s] + post);
      { SectionsActiveKeysAppend(pre + [s], post); }
      SectionsActiveKeys(pre + [s]) + SectionsActiveKeys(post);
      { SectionsActiveKeysAppend(pre, [s]); }
      SectionsActiveKeys(pre) + SectionsActiveKeys(post);
      { SectionsActiveKeysAppend(pre, post); }
      SectionsActiveKeys(pre + post);
      { assert pre + post == secs; }
      SectionsActiveKeys(secs);
    }
  }

  /** Replacing the Translations of an inactive Key of an Article (its
      Section is inactive, or it has no index) does not change the Article's
      active Keys. */
  lemma InactiveKeyTranslationsIgnored(secs: seq<Section>, targeted: map<Locale, bool>, si: nat, ki: nat, ts: seq<Translation>)
    requires si < |secs| && ki < |secs[si].keys|
    requires !secs[si].active || !Indexed(secs[si].keys[ki])
    ensures ActiveKeys(Article(secs[si := Section(secs[si].active, secs[si].keys[ki := Key(secs[si].keys[ki].indexInSection, ts)])], targeted))
         == ActiveKeys(Article(secs, targeted))
  {
    var s := secs[si];
    var k := s.keys[ki];
    var k' := Key(k.indexInSection, ts);
    var s' := Section(s.active, s.keys[ki := k']);
    if s.active {
      assert IndexedKeys([k]) == [] && IndexedKeys([k']) == [] by {
        assert [k][..0] == [] && [k'][..0] == [];
      }
      assert s.keys == s.keys[..ki] + [k] + s.keys[ki + 1..];
      assert s'.keys == s.keys[..ki] + [k'] + s.keys[ki + 1..];
      IndexedKeysAppend(s.keys[..ki] + [k], s.keys[ki + 1..]);
      IndexedKeysAppend(s.keys[..ki], [k]);
      IndexedKeysAppend(s.keys[..ki] + [k'], s.keys[ki + 1..]);
      IndexedKeysAppend(s.keys[..ki], [k']);
    }
    assert SectionActiveKeys(s') == SectionActiveKeys(s);
    SectionReplaced(secs, si, s');
  }

  /** Replacing a Section by one with the same active Keys keeps the active
      Keys of the whole sequence. */
  lemma SectionReplaced(secs: seq<Section>, si: nat, s': Section)
    requires si < |secs|
    requires SectionActiveKeys(s') == SectionActiveKeys(secs[si])
    ensures SectionsActiveKeys(secs[si := s']) == SectionsActiveKeys(secs)
  {
    SectionSplit(secs, si, s');
    SectionSplit(secs, si, secs[si]);
    assert secs[si := secs[si]] == secs;
  }

  /** The active Keys of a sequence with Section `si` replaced by `s'`. */
  lemma SectionSplit(secs: seq<Section>, si: nat, s': Section)
    requires si < |secs|
    ensures SectionsActiveKeys(secs[si := s'])
         == SectionsActiveKeys(secs[..si]) + SectionActiveKeys(s') + SectionsActiveKeys(secs[si + 1..])
  {
    assert secs[si := s'] == secs[..si] + [s'] + secs[si + 1..];
    assert SectionsActiveKeys([s']) == SectionActiveKeys(s') by {
      assert [s'][..0] == [];
    }
    SectionsActiveKeysAppend(secs[..si] + [s'], secs[si + 1..]);
    SectionsActiveKeysAppend(secs[..si], [s']);
  }
}
