/**
 Which Decky releases a discovery pairs with: the latest stable one, and the newest prerelease that was
 published after it. The two come from two answers of the release feed, given one after the other.
 */
module CurrentReleases {
  import opened PairIdentity
  import opened Ledger
  import opened LedgerRuns
  import opened Sequences
  import opened Utf8
  import opened Wrappers

  /** A release as the feed tells it, with what is read of its identity; only the chosen ones must be sound. */
  datatype Release = Release(decky: Decky, draft: bool, published: string)

  predicate Later(a: string, b: string) {
    LexLess(Codes(a), Codes(b))
  }

  predicate IsNewer(row: Release, published: string) {
    row.decky.channel == "prerelease" && !row.draft && Later(published, row.published)
  }

  /** The newest prerelease after a time, the first of those if several were published at once. */
  function NewestAfter(rows: seq<Release>, published: string): (r: Option<Release>)
    ensures r.Some? <==> exists row :: row in rows && IsNewer(row, published)
    ensures r.Some? ==> r.value in rows && IsNewer(r.value, published)
    ensures r.Some? ==>
              forall row :: row in rows && IsNewer(row, published) ==> !Later(r.value.published, row.published)
  {
    if rows == [] then None
    else
      var before, last := NewestAfter(rows[..|rows| - 1], published), rows[|rows| - 1];
      assert rows == rows[..|rows| - 1] + [last];
      if !IsNewer(last, published) then before
      else if before.Some? && !Later(before.value.published, last.published) then before
      else
        LaterThanAll(rows[..|rows| - 1], published, before, last);
        Some(last)
  }

  lemma LaterThanAll(rows: seq<Release>, published: string, before: Option<Release>, last: Release)
    requires before.Some? ==> Later(before.value.published, last.published)
    requires before.Some? ==>
               forall row :: row in rows && IsNewer(row, published) ==> !Later(before.value.published, row.published)
    requires before.None? ==> forall row :: row in rows ==> !IsNewer(row, published)
    ensures forall row :: row in rows + [last] && IsNewer(row, published) ==> !Later(last.published, row.published)
  {
    forall row | row in rows + [last] && IsNewer(row, published)
      ensures !Later(last.published, row.published)
    {
      LexLessIrreflexive(Codes(last.published));
      if row in rows && Later(last.published, row.published) {
        LexLessTransitive(Codes(before.value.published), Codes(last.published), Codes(row.published));
      }
    }
  }

  function CurrentDecky(stable: Release, rows: seq<Release>): seq<Decky> {
    var newest := NewestAfter(rows, stable.published);
    [stable.decky] + if newest.Some? then [newest.value.decky] else []
  }

  /** Whether the prerelease chosen besides the stable release has its tag and its executable. */
  predicate SameRelease(stable: Release, rows: seq<Release>) {
    var newest := NewestAfter(rows, stable.published);
    newest.Some? && newest.value.decky.tag == stable.decky.tag
    && AssetPart(newest.value.decky) == AssetPart(stable.decky)
  }

  /** What `discover` is given: the one plugin release with each current Decky release. */
  function Current(plugin: Plugin, stable: Release, rows: seq<Release>): seq<(Plugin, Decky)> {
    Products([plugin], CurrentDecky(stable, rows))
  }

  lemma CurrentItems(plugin: Plugin, stable: Release, rows: seq<Release>)
    requires NewestAfter(rows, stable.published).None?
    ensures Current(plugin, stable, rows) == [(plugin, stable.decky)]
  {
    PairedOne(plugin, stable.decky);
    assert CurrentDecky(stable, rows) == [stable.decky];
  }

  lemma CurrentBoth(plugin: Plugin, stable: Release, rows: seq<Release>)
    requires NewestAfter(rows, stable.published).Some?
    ensures var newest := NewestAfter(rows, stable.published).value;
            Current(plugin, stable, rows) == [(plugin, stable.decky), (plugin, newest.decky)]
  {
    PairedTwo(plugin, stable.decky, NewestAfter(rows, stable.published).value.decky);
  }

  lemma PairedOne(plugin: Plugin, a: Decky)
    ensures With(plugin, [a]) == [(plugin, a)] && Products([plugin], [a]) == [(plugin, a)]
  {
    assert [a][1..] == [] && [plugin][1..] == [];
  }

  lemma PairedTwo(plugin: Plugin, a: Decky, b: Decky)
    ensures Products([plugin], [a] + [b]) == [(plugin, a), (plugin, b)]
  {
    PairedOne(plugin, b);
    assert ([a] + [b])[1..] == [b] && [plugin][1..] == [];
    assert With(plugin, [a] + [b]) == [(plugin, a)] + [(plugin, b)];
  }

  /** A discovery keeps a valid ledger valid exactly when the feed does not answer one release as both. */
  lemma CurrentValidExactly(l: Ledger, plugin: Plugin, stable: Release, rows: seq<Release>, now: int)
    requires Valid(l) && ValidPlugin(plugin) && ValidDecky(stable.decky) && now > 0
    requires var newest := NewestAfter(rows, stable.published); newest.Some? ==> ValidDecky(newest.value.decky)
    ensures Valid(Discovered(l, Current(plugin, stable, rows), now)) <==> !SameRelease(stable, rows)
  {
    hide Valid, ValidPlugin, ValidDecky, PairKey, NewestAfter, Discovered, Current, AssetPart;
    var items, newest := Current(plugin, stable, rows), NewestAfter(rows, stable.published);
    if newest.Some? { CurrentBoth(plugin, stable, rows); } else { CurrentItems(plugin, stable, rows); }
    DiscoverValidExactly(l, items, now);
    if newest.Some? {
      SameKeyExactly(plugin, stable.decky, plugin, newest.value.decky);
      assert items == [(plugin, stable.decky), (plugin, newest.value.decky)];
    }
  }

  const STABLE := Release(Decky("v3.1.0", "stable", 1, None), false, "2026-01-01")
  const AGAIN := Release(Decky("v3.1.0", "prerelease", 2, None), false, "2026-01-02")

  /**
   A release taken down and published again under its tag, as a prerelease, between the two answers: the
   feed then gives it as both, and the discovery leaves a ledger that the save refuses.
   */
  lemma RepublishedCollides(l: Ledger, plugin: Plugin, now: int)
    requires Valid(l) && ValidPlugin(plugin) && now > 0
    ensures ValidDecky(STABLE.decky) && ValidDecky(AGAIN.decky)
    ensures CurrentDecky(STABLE, [AGAIN]) == [STABLE.decky, AGAIN.decky]
    ensures PairKey(plugin, STABLE.decky) == PairKey(plugin, AGAIN.decky)
    ensures !Valid(Discovered(l, Current(plugin, STABLE, [AGAIN]), now))
  {
    hide Valid, ValidPlugin, ValidDecky, Discovered, Current, PairKey, NewestAfter, AssetPart, CurrentDecky;
    BothValid();
    OnlyAgain();
    SameTagCollides(l, plugin, STABLE, AGAIN, now);
  }

  lemma SameTagCollides(l: Ledger, plugin: Plugin, stable: Release, again: Release, now: int)
    requires Valid(l) && ValidPlugin(plugin) && now > 0 && ValidDecky(stable.decky) && ValidDecky(again.decky)
    requires stable.decky.tag == again.decky.tag && AssetPart(stable.decky) == AssetPart(again.decky)
    requires NewestAfter([again], stable.published) == Some(again)
    ensures CurrentDecky(stable, [again]) == [stable.decky, again.decky]
    ensures PairKey(plugin, stable.decky) == PairKey(plugin, again.decky)
    ensures !Valid(Discovered(l, Current(plugin, stable, [again]), now))
  {
    hide Valid, ValidPlugin, ValidDecky, Discovered, Current, PairKey, NewestAfter, AssetPart;
    SameKeyExactly(plugin, stable.decky, plugin, again.decky);
    CurrentValidExactly(l, plugin, stable, [again], now);
  }

  lemma BothValid()
    ensures ValidDecky(STABLE.decky) && ValidDecky(AGAIN.decky) && AssetPart(STABLE.decky) == AssetPart(AGAIN.decky)
  {
    TagIsOne();
    hide IsDeckyTag;
  }

  lemma OnlyAgain()
    ensures NewestAfter([AGAIN], STABLE.published) == Some(AGAIN)
  {
    PublishedLater();
    hide Later;
    assert [AGAIN][..0] == [];
  }

  lemma TagIsOne()
    ensures IsDeckyTag("v3.1.0")
  {
    var t := "v3.1.0";
    assert t[1..6] == "3.1.0";
    var s := "3.1.0";
    assert s[..1] == "3" && s[2..3] == "1" && s[4..] == "0";
    assert Digits("3") && Digits("1") && Digits("0");
    assert s[1] == '.' && s[3] == '.' && Digits(s[..1]) && Digits(s[1 + 1..3]) && Digits(s[3 + 1..]);
    assert Dotted(s);
    assert Dotted(t[1..6]) && t[0] == 'v' && |t| == 6;
  }

  lemma PublishedLater()
    ensures Later("2026-01-01", "2026-01-02")
  {
    var common := "2026-01-0";
    assert "2026-01-01" == common + "1" && "2026-01-02" == common + "2";
    hide Codes, LexLess;
    CodesConcat(common, "1");
    CodesConcat(common, "2");
    LexLessCommon(Codes(common), Codes("1"), Codes("2"));
    OneBeforeTwo();
  }

  lemma OneBeforeTwo()
    ensures LexLess(Codes("1"), Codes("2"))
  {
    assert Codes("1")[0] == '1' as int && Codes("2")[0] == '2' as int;
  }
}
