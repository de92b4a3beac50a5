/**
 What the compatibility monitor tests: pairs of a CE Decky release and a Decky runtime, and the key
 that names a pair in its ledger.
 */
module PairIdentity {
  import opened Wrappers
  import opened Strings

  const UPSTREAM := "SteamDeckHomebrew/decky-loader"
  const PLUGIN_REPO := "goooroooX/CE-Decky"
  const MAX_ASSET := 128 * 1024 * 1024

  datatype Plugin = Plugin(channel: string, version: string, tag: string, url: string, sha256: string)
  datatype Asset = Asset(url: string, sha256: string, size: int)
  datatype Decky = Decky(tag: string, channel: string, releaseId: int, asset: Option<Asset>)
  datatype Pair = Pair(key: string, plugin: Plugin, decky: Decky)

  predicate IsTagChar(c: char) { Digit(c) || 'a' <= c <= 'z' || 'A' <= c <= 'Z' || c == '.' || c == '-' }

  predicate All(s: string, p: char -> bool) {
    forall i :: 0 <= i < |s| ==> p(s[i])
  }

  predicate Digits(s: string) {
    s != "" && AllDigits(s)
  }

  /** Three numbers with dots between them. */
  predicate Dotted(s: string) {
    exists i, j :: 0 <= i < j < |s| && s[i] == '.' && s[j] == '.'
      && Digits(s[..i]) && Digits(s[i + 1..j]) && Digits(s[j + 1..])
  }

  predicate Hex(s: string, n: nat) {
    |s| == n && All(s, HexDigit)
  }

  predicate IsDeckyTag(t: string) {
    exists a, b :: 0 <= a <= b <= |t| && (a == 0 || (a == 1 && t[0] == 'v')) && Dotted(t[a..b])
      && (b == |t| || ((t[b] == '-' || t[b] == '.') && b + 1 < |t| && All(t[b + 1..], IsTagChar)))
  }

  predicate ValidPlugin(p: Plugin) {
    && p.channel == "github"
    && Dotted(p.version) && p.tag == "v" + p.version
    && Hex(p.sha256, 64)
    && p.url == "https://github.com/" + PLUGIN_REPO + "/releases/download/" + p.tag + "/CE-Decky-" + p.tag + ".zip"
  }

  predicate ValidAsset(a: Asset, tag: string) {
    && Hex(a.sha256, 64) && 0 < a.size <= MAX_ASSET
    && a.url == "https://github.com/" + UPSTREAM + "/releases/download/" + tag + "/PluginLoader"
  }

  predicate ValidDecky(d: Decky) {
    && |d.tag| <= 128 && IsDeckyTag(d.tag)
    && (d.channel == "stable" || d.channel == "prerelease")
    && d.releaseId > 0
    && (d.asset.Some? ==> ValidAsset(d.asset.value, d.tag))
  }

  /** The first characters of a text, as a slice takes them. */
  function First(s: string, n: nat): string {
    if |s| < n then s else s[..n]
  }

  function AssetPart(d: Decky): string {
    if d.asset.Some? then First(d.asset.value.sha256, 16) else "no-asset"
  }

  function Key(channel: string, version: string, sha: string, tag: string, asset: string): string {
    channel + ("/" + (version + ("/" + (sha + ("+" + (tag + ("/" + asset)))))))
  }

  function PairKey(p: Plugin, d: Decky): string {
    Key(p.channel, p.version, First(p.sha256, 16), d.tag, AssetPart(d))
  }

  predicate ValidPair(v: Pair) {
    && ValidPlugin(v.plugin) && ValidDecky(v.decky)
    && v.decky.asset.Some?
    && v.key == PairKey(v.plugin, v.decky)
  }

  /** The ledger's pattern for a key. */
  predicate IsPairKey(k: string) {
    exists a, b, c, d :: 0 < a < b < c < d < |k| && KeyAt(k, a, b, c, d)
  }

  /** A key whose separators stand at these positions. */
  predicate KeyAt(k: string, a: nat, b: nat, c: nat, d: nat)
    requires a < b < c < d < |k|
  {
    && k[a] == '/' && k[b] == '/' && k[c] == '+' && k[d] == '/'
    && All(k[..a], c => 'a' <= c <= 'z')
    && a + 1 < b && All(k[a + 1..b], c => Digit(c) || c == '.')
    && Hex(k[b + 1..c], 16)
    && c + 1 < d && All(k[c + 1..d], IsTagChar)
    && (Hex(k[d + 1..], 16) || k[d + 1..] == "no-asset")
  }

  lemma DottedChars(s: string)
    requires Dotted(s)
    ensures s != "" && All(s, c => Digit(c) || c == '.')
  {
    var i, j :| 0 <= i < j < |s| && s[i] == '.' && s[j] == '.'
      && Digits(s[..i]) && Digits(s[i + 1..j]) && Digits(s[j + 1..]);
    forall k | 0 <= k < |s|
      ensures Digit(s[k]) || s[k] == '.'
    {
      if k < i {
        assert s[k] == s[..i][k];
      } else if i < k < j {
        assert s[k] == s[i + 1..j][k - i - 1];
      } else if j < k {
        assert s[k] == s[j + 1..][k - j - 1];
      }
    }
  }

  lemma DeckyTagChars(t: string)
    requires IsDeckyTag(t)
    ensures t != "" && All(t, IsTagChar)
  {
    hide Dotted;
    var a, b :| 0 <= a <= b <= |t| && (a == 0 || (a == 1 && t[0] == 'v')) && Dotted(t[a..b])
      && (b == |t| || ((t[b] == '-' || t[b] == '.') && b + 1 < |t| && All(t[b + 1..], IsTagChar)));
    DottedChars(t[a..b]);
    forall k | 0 <= k < |t|
      ensures IsTagChar(t[k])
    {
      if a <= k < b {
        assert t[k] == t[a..b][k - a];
      } else if b < k {
        assert t[k] == t[b + 1..][k - b - 1];
      }
    }
  }

  /** The parts of a key can be read back off it. */
  lemma KeySlices(channel: string, version: string, sha: string, tag: string, asset: string)
    ensures var k := Key(channel, version, sha, tag, asset);
      var a := |channel|; var b := a + 1 + |version|; var c := b + 1 + |sha|; var d := c + 1 + |tag|;
      && a < b < c < d < |k| && |k| == d + 1 + |asset|
      && k[a] == '/' && k[b] == '/' && k[c] == '+' && k[d] == '/'
      && k[..a] == channel && k[a + 1..b] == version && k[b + 1..c] == sha && k[c + 1..d] == tag && k[d + 1..] == asset
  {
  }

  lemma KeyFits(channel: string, version: string, sha: string, tag: string, asset: string)
    requires channel != "" && All(channel, c => 'a' <= c <= 'z')
    requires version != "" && All(version, c => Digit(c) || c == '.')
    requires Hex(sha, 16)
    requires tag != "" && All(tag, IsTagChar)
    requires Hex(asset, 16) || asset == "no-asset"
    ensures IsPairKey(Key(channel, version, sha, tag, asset))
  {
    KeySlices(channel, version, sha, tag, asset);
    var k := Key(channel, version, sha, tag, asset);
    var a := |channel|;
    var b := a + 1 + |version|;
    var c := b + 1 + |sha|;
    var d := c + 1 + |tag|;
    assert KeyAt(k, a, b, c, d);
  }

  /** Every identity the monitor accepts has a key the ledger accepts. */
  lemma ValidHasKey(p: Plugin, d: Decky)
    requires ValidPlugin(p) && ValidDecky(d)
    ensures IsPairKey(PairKey(p, d))
  {
    DottedChars(p.version);
    DeckyTagChars(d.tag);
    KeyFits(p.channel, p.version, First(p.sha256, 16), d.tag, AssetPart(d));
  }

  lemma SplitAt(x: string, c: char, rest: string)
    ensures var s := x + ([c] + rest);
      && s[|x|] == c && s[..|x|] == x && s[|x| + 1..] == rest
      && forall i :: 0 <= i < |x| ==> s[i] == x[i]
  {
  }

  /** A text before the first separator is determined by the whole. */
  lemma SplitUnique(x: string, rest: string, y: string, rest': string, c: char)
    requires x + ([c] + rest) == y + ([c] + rest')
    requires c !in x && c !in y
    ensures x == y && rest == rest'
  {
    SplitAt(x, c, rest);
    SplitAt(y, c, rest');
    assert |x| == |y|;
  }

  /** What two identities share exactly when they share a key. */
  predicate SameSubject(p: Plugin, d: Decky, p': Plugin, d': Decky) {
    && p.channel == p'.channel && p.version == p'.version
    && First(p.sha256, 16) == First(p'.sha256, 16)
    && d.tag == d'.tag && AssetPart(d) == AssetPart(d')
  }

  /**
   Two valid identities have one key exactly when they agree on the release version, the Decky tag and
   the first sixteen digits of both digests: nothing else tells pairs apart.
   */
  lemma SameKeyExactly(p: Plugin, d: Decky, p': Plugin, d': Decky)
    requires ValidPlugin(p) && ValidDecky(d) && ValidPlugin(p') && ValidDecky(d')
    ensures PairKey(p, d) == PairKey(p', d') <==> SameSubject(p, d, p', d')
  {
    if PairKey(p, d) == PairKey(p', d') {
      var s, s' := First(p.sha256, 16), First(p'.sha256, 16);
      var a, a' := AssetPart(d), AssetPart(d');
      NoSeparators(p, d);
      NoSeparators(p', d');
      SplitUnique(p.channel, p.version + ("/" + (s + ("+" + (d.tag + ("/" + a))))),
                  p'.channel, p'.version + ("/" + (s' + ("+" + (d'.tag + ("/" + a'))))), '/');
      SplitUnique(p.version, s + ("+" + (d.tag + ("/" + a))), p'.version, s' + ("+" + (d'.tag + ("/" + a'))), '/');
      SplitUnique(s, d.tag + ("/" + a), s', d'.tag + ("/" + a'), '+');
      SplitUnique(d.tag, a, d'.tag, a', '/');
    }
  }

  lemma NoSeparators(p: Plugin, d: Decky)
    requires ValidPlugin(p) && ValidDecky(d)
    ensures '/' !in p.channel && '/' !in p.version && '+' !in First(p.sha256, 16) && '/' !in d.tag
  {
    DottedChars(p.version);
    DeckyTagChars(d.tag);
  }
}
