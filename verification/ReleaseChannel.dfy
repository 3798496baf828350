/**
 * Versions of a package pinned to a prerelease channel (release-channel.ts, version.ts), in the order
 * section 11 of Semantic Versioning 2.0.0 gives them.
 */
module ReleaseChannel {
  import opened CodeUnits
  import opened Decimals
  import opened Dotted
  import opened Options

  datatype Base = Base(major: nat, minor: nat, patch: nat)

  /** `pre` is what follows the first hyphen. */
  datatype Version = Version(base: Base, pre: Option<string>)

  // ---- Precedence ----

  predicate BaseBefore(a: Base, b: Base) {
    a.major < b.major || (a.major == b.major && (a.minor < b.minor || (a.minor == b.minor && a.patch < b.patch)))
  }

  predicate IsNumeric(id: string) {
    id != "" && forall c <- id :: IsDigit(c)
  }

  function NumberOf(id: string): nat
    requires forall c <- id :: IsDigit(c)
  {
    if id == "" then 0 else
    var last := id[|id| - 1];
    assert last in id && IsDigit(last);
    NumberOf(id[..|id| - 1]) * 10 + (last as int - '0' as int)
  }

  /** Numeric identifiers compare by value and come before the others. */
  predicate IdentifierBefore(a: string, b: string) {
    if IsNumeric(a) then !IsNumeric(b) || NumberOf(a) < NumberOf(b)
    else !IsNumeric(b) && TextBefore(a, b)
  }

  /** Identifier by identifier; of two that agree, the longer comes after. */
  predicate IdentifiersBefore(a: seq<string>, b: seq<string>) {
    b != [] && (a == [] || IdentifierBefore(a[0], b[0]) || (a[0] == b[0] && IdentifiersBefore(a[1..], b[1..])))
  }

  predicate PrereleaseBefore(a: Option<string>, b: Option<string>) {
    match (a, b)
    case (Some(p), Some(q)) => IdentifiersBefore(Split(p), Split(q))
    case (Some(_), None) => true
    case _ => false
  }

  predicate Precedes(v: Version, w: Version) {
    BaseBefore(v.base, w.base) || (v.base == w.base && PrereleaseBefore(v.pre, w.pre))
  }

  // ---- The order, against the examples of section 11 ----

  lemma NumbersExample()
    ensures IsNumeric("1") && IsNumeric("2") && IsNumeric("11") && !IsNumeric("alpha") && !IsNumeric("beta") && !IsNumeric("rc")
    ensures NumberOf("1") == 1 && NumberOf("2") == 2 && NumberOf("11") == 11
  {
    assert !IsDigit('b') && 'b' in "beta" && 'r' in "rc" && 'a' in "alpha";
    assert "2"[..0] == "" && "11"[..1] == "1" && "1"[..0] == "";
  }

  lemma TextsExample()
    ensures TextBefore("alpha", "beta") && TextBefore("beta", "rc") && !TextBefore("beta", "alpha")
    ensures !TextBefore("alpha", "alpha") && !TextBefore("beta", "beta")
  {
    assert "alpha"[0] < "beta"[0] && "beta"[0] < "rc"[0];
    NotBeforeItself("alpha");
    NotBeforeItself("beta");
  }

  /** Numeric identifiers compare as numbers and come before the others; those compare as texts; the longer of two comes last. */
  lemma IdentifiersExample()
    ensures IdentifiersBefore(["alpha"], ["alpha", "1"]) && IdentifiersBefore(["alpha", "1"], ["alpha", "beta"])
    ensures IdentifiersBefore(["alpha", "beta"], ["beta"]) && IdentifiersBefore(["beta"], ["beta", "2"])
    ensures IdentifiersBefore(["beta", "2"], ["beta", "11"]) && IdentifiersBefore(["beta", "11"], ["rc", "1"])
    ensures !IdentifiersBefore(["alpha", "beta"], ["alpha", "1"]) && !IdentifiersBefore(["beta", "11"], ["beta", "2"])
  {
    NumbersExample();
    TextsExample();
    hide NumberOf, IsNumeric, TextBefore;
    assert ["alpha", "1"][1..] == ["1"] && ["alpha", "beta"][1..] == ["beta"] && ["beta", "2"][1..] == ["2"] && ["beta", "11"][1..] == ["11"];
    assert ["alpha"][1..] == [] && ["beta"][1..] == [] && ["1"][1..] == [] && ["2"][1..] == [] && ["11"][1..] == [];
    assert IdentifiersBefore(["2"], ["11"]) && IdentifiersBefore(["1"], ["beta"]);
    assert !IdentifiersBefore(["beta"], ["1"]) && !IdentifiersBefore(["11"], ["2"]);
  }

  /** The first number that differs decides; and any prerelease comes before the version it leads to. */
  lemma PrecedenceExample(base: Base, pre: string)
    ensures Precedes(Version(Base(1, 9, 9), None), Version(Base(1, 10, 0), None)) && Precedes(Version(Base(1, 10, 9), None), Version(Base(2, 0, 0), None))
    ensures Precedes(Version(Base(1, 0, 9), Some(pre)), Version(Base(1, 0, 10), Some(pre))) && !Precedes(Version(Base(2, 0, 0), Some(pre)), Version(Base(1, 9, 9), None))
    ensures Precedes(Version(base, Some(pre)), Version(base, None)) && !Precedes(Version(base, None), Version(base, Some(pre)))
  {
  }

  // ---- The next version of a channel ----

  /** The text `-<distTag>.N` gives after its hyphen. */
  function OnChannel(tag: string, n: nat): string {
    tag + "." + Decimal(n)
  }

  /** `readChannelCounter`: the `N` of `<distTag>.N`, `-1` for anything else. */
  function Counter(pre: Option<string>, tag: string): int {
    if pre.None? then -1 else
    var ids := Split(pre.value);
    if |ids| == 2 && ids[0] == tag && IsNumeric(ids[1]) then NumberOf(ids[1]) else -1
  }

  /** `nextChannelVersion`. */
  function NextVersion(previous: Version, stable: Base, tag: string): Version {
    if previous.base != stable then Version(stable, Some(OnChannel(tag, 0)))
    else
      var counter := Counter(previous.pre, tag);
      Version(stable, Some(OnChannel(tag, if counter < 0 then 0 else counter + 1)))
  }

  /** A tag of letters and digits, not all of them digits. */
  predicate IsTag(tag: string) {
    tag != "" && (forall c <- tag :: IsDigit(c) || 'a' <= c <= 'z' || 'A' <= c <= 'Z') && !IsNumeric(tag)
  }

  // ---- What is read back ----

  lemma {:induction false} NumberOfDecimal(n: nat)
    ensures IsNumeric(Decimal(n)) && NumberOf(Decimal(n)) == n
  {
    if n >= 10 {
      NumberOfDecimal(n / 10);
      assert Decimal(n)[..|Decimal(n)| - 1] == Decimal(n / 10);
    } else {
      assert Decimal(n)[..0] == "";
    }
    assert "0123456789"[n % 10] as int - '0' as int == n % 10;
  }

  lemma {:induction false} SplitUndotted(s: string)
    requires '.' !in s
    ensures Split(s) == [s]
  {
    if s != "" {
      SplitUndotted(s[1..]);
      assert [s[0]] + s[1..] == s;
    }
  }

  lemma {:induction false} SplitAtDot(a: string, b: string)
    requires '.' !in a
    ensures Split(a + "." + b) == [a] + Split(b)
  {
    var s := a + "." + b;
    hide Join;
    if a == "" {
      assert s[1..] == b;
    } else {
      SplitAtDot(a[1..], b);
      assert s[1..] == a[1..] + "." + b;
      var rest := Split(s[1..]);
      assert rest == [a[1..]] + Split(b) && rest[1..] == Split(b);
      assert [s[0]] + rest[0] == a;
    }
  }

  lemma ChannelIdentifiers(tag: string, n: nat)
    requires IsTag(tag)
    ensures Split(OnChannel(tag, n)) == [tag, Decimal(n)] && Counter(Some(OnChannel(tag, n)), tag) == n
  {
    NumberOfDecimal(n);
    assert '.' !in tag;
    assert '.' !in Decimal(n);
    SplitAtDot(tag, Decimal(n));
    SplitUndotted(Decimal(n));
  }

  lemma {:induction false} NotBeforeItself(s: string)
    ensures !TextBefore(s, s)
  {
    if s != "" { NotBeforeItself(s[1..]); }
  }

  /** Along a channel, a greater counter is a later version. */
  lemma CounterOrders(pre: Option<string>, tag: string, n: nat)
    requires IsTag(tag) && Counter(pre, tag) >= 0
    ensures PrereleaseBefore(pre, Some(OnChannel(tag, n))) <==> Counter(pre, tag) < n
  {
    ChannelIdentifiers(tag, n);
    NumberOfDecimal(n);
    NotBeforeItself(tag);
    var a, b := Split(pre.value), [tag, Decimal(n)];
    assert a == [tag, a[1]] && a[1..] == [a[1]] && b[1..] == [Decimal(n)];
    assert [a[1]][1..] == [] && [Decimal(n)][1..] == [];
    assert !IdentifiersBefore([], []);
    assert IdentifiersBefore([a[1]], [Decimal(n)]) <==> NumberOf(a[1]) < n;
    assert IdentifiersBefore(a, b) <==> IdentifiersBefore(a[1..], b[1..]);
  }

  /** The channel's version stays below the stable one it stands for. */
  lemma StaysBelowStable(previous: Version, stable: Base, tag: string)
    ensures Precedes(NextVersion(previous, stable, tag), Version(stable, None))
  {
  }

  // ---- One release ----

  /**
   * A release moves forward exactly when its base moves, or the version before was on the channel,
   * or it was a prerelease that comes before the channel's first.
   */
  lemma MovesForwardIff(previous: Version, stable: Base, tag: string)
    requires IsTag(tag) && !BaseBefore(stable, previous.base)
    ensures Precedes(previous, NextVersion(previous, stable, tag))
            <==> (previous.base != stable || Counter(previous.pre, tag) >= 0
                  || PrereleaseBefore(previous.pre, Some(OnChannel(tag, 0))))
  {
    if previous.base == stable && Counter(previous.pre, tag) >= 0 {
      CounterOrders(previous.pre, tag, Counter(previous.pre, tag) + 1);
    }
  }

  /** Moved to a channel that comes earlier in the alphabet, a prerelease goes backwards. */
  lemma ChangingChannelGoesBack()
    ensures var v := Version(Base(1, 0, 0), Some(OnChannel("beta", 5)));
            var w := NextVersion(v, Base(1, 0, 0), "alpha");
            w == Version(Base(1, 0, 0), Some(OnChannel("alpha", 0))) && Precedes(w, v)
  {
    assert 'b' in "beta" && 'a' in "alpha" && !IsDigit('b') && !IsDigit('a');
    assert IsTag("beta") && IsTag("alpha");
    ChannelIdentifiers("beta", 5);
    ChannelIdentifiers("alpha", 0);
    assert "alpha"[0] < "beta"[0] && TextBefore("alpha", "beta");
  }

  // ---- Chains of releases ----

  /** The versions a package goes through, given the stable base computed for each of its releases. */
  function Chain(first: Version, bases: seq<Base>, tag: string): Version {
    if bases == [] then first
    else NextVersion(Chain(first, bases[..|bases| - 1], tag), bases[|bases| - 1], tag)
  }

  /** Bases never go back. */
  ghost predicate NeverBack(first: Version, bases: seq<Base>) {
    forall i | 0 <= i < |bases| :: !BaseBefore(bases[i], if i == 0 then first.base else bases[i - 1])
  }

  /** How many releases there were on the last base just before the last one. */
  function EarlierOnBase(bases: seq<Base>): nat {
    if |bases| < 2 || bases[|bases| - 2] != bases[|bases| - 1] then 0
    else 1 + EarlierOnBase(bases[..|bases| - 1])
  }

  /** Whether every release so far was on one base. */
  predicate OneBase(bases: seq<Base>) {
    bases == [] || EarlierOnBase(bases) == |bases| - 1
  }

  lemma {:induction false} EarlierAreFewer(bases: seq<Base>)
    ensures bases != [] ==> EarlierOnBase(bases) <= |bases| - 1
  {
    if |bases| >= 2 { EarlierAreFewer(bases[..|bases| - 1]); }
  }

  /** From a version of the channel the next one counts on, on the same base, and starts over on another. */
  lemma NextOnChannel(base: Base, n: nat, stable: Base, tag: string)
    requires IsTag(tag)
    ensures NextVersion(Version(base, Some(OnChannel(tag, n))), stable, tag)
            == Version(stable, Some(OnChannel(tag, if base == stable then n + 1 else 0)))
  {
    hide OnChannel, Counter, IsTag;
    ChannelIdentifiers(tag, n);
  }

  /**
   * After any releases the version is on the channel, on the last base, and its counter is the
   * number of releases before it on that base since the series started; a version the package
   * already had in the series counts too.
   */
  lemma {:induction false} CounterCountsReleases(first: Version, bases: seq<Base>, tag: string)
    requires IsTag(tag) && bases != []
    ensures var before := if OneBase(bases) && first.base == bases[0] then Counter(first.pre, tag) + 1 else 0;
            before >= 0 && Chain(first, bases, tag) == Version(bases[|bases| - 1], Some(OnChannel(tag, EarlierOnBase(bases) + before)))
  {
    hide OnChannel, Counter, IsTag;
    var n := |bases| - 1;
    EarlierAreFewer(bases);
    if n == 0 {
      CounterIsAtLeast(first.pre, tag);
      assert bases[..0] == [];
    } else {
      hide NextVersion;
      CounterCountsReleases(first, bases[..n], tag);
      EarlierAreFewer(bases[..n]);
      var before := if OneBase(bases[..n]) && first.base == bases[0] then Counter(first.pre, tag) + 1 else 0;
      CounterIsAtLeast(first.pre, tag);
      NextOnChannel(bases[n - 1], EarlierOnBase(bases[..n]) + before, bases[n], tag);
    }
  }

  lemma CounterIsAtLeast(pre: Option<string>, tag: string)
    ensures Counter(pre, tag) >= -1
  {
  }

  /** Along a chain every release but the first is later than the one before it. */
  lemma ChainIncreases(first: Version, bases: seq<Base>, tag: string)
    requires IsTag(tag) && |bases| >= 2 && NeverBack(first, bases)
    ensures Precedes(Chain(first, bases[..|bases| - 1], tag), Chain(first, bases, tag))
  {
    hide OnChannel, Counter, IsTag, Precedes, EarlierOnBase, OneBase;
    var n := |bases| - 1;
    CounterCountsReleases(first, bases[..n], tag);
    var previous := Chain(first, bases[..n], tag);
    assert bases[..n][n - 1] == bases[n - 1] && previous.base == bases[n - 1];
    var before := if OneBase(bases[..n]) && first.base == bases[..n][0] then Counter(first.pre, tag) + 1 else 0;
    ChannelIdentifiers(tag, EarlierOnBase(bases[..n]) + before);
    MovesForwardIff(previous, bases[n], tag);
  }

  /** Every version of a chain stays below its stable one. */
  lemma ChainStaysBelowStable(first: Version, bases: seq<Base>, tag: string)
    requires bases != []
    ensures Precedes(Chain(first, bases, tag), Version(bases[|bases| - 1], None))
  {
    StaysBelowStable(Chain(first, bases[..|bases| - 1], tag), bases[|bases| - 1], tag);
  }

  // ---- As text ----

  function RenderBase(b: Base): string {
    Decimal(b.major) + "." + (Decimal(b.minor) + "." + Decimal(b.patch))
  }

  function Render(v: Version): string {
    RenderBase(v.base) + if v.pre.Some? then "-" + v.pre.value else ""
  }

  predicate IsPrereleaseChar(c: char) {
    IsDigit(c) || 'a' <= c <= 'z' || 'A' <= c <= 'Z' || c == '.' || c == '-'
  }

  function BeforeHyphen(s: string): (head: string)
    ensures head <= s && '-' !in head && (head == s || s[|head|] == '-')
  {
    if s == "" || s[0] == '-' then "" else [s[0]] + BeforeHyphen(s[1..])
  }

  /** `VERSION_PATTERN`. */
  function Parse(s: string): Option<Version> {
    var head := BeforeHyphen(s);
    var ids := Split(head);
    if |ids| != 3 || !IsNumeric(ids[0]) || !IsNumeric(ids[1]) || !IsNumeric(ids[2]) then None else
    var base := Base(NumberOf(ids[0]), NumberOf(ids[1]), NumberOf(ids[2]));
    if head == s then Some(Version(base, None)) else
    var pre := s[|head| + 1..];
    if pre != "" && forall c <- pre :: IsPrereleaseChar(c) then Some(Version(base, Some(pre))) else None
  }

  lemma {:induction false} HeadEndsAtHyphen(a: string, b: string)
    requires '-' !in a
    ensures BeforeHyphen(a + "-" + b) == a
  {
    var s := a + "-" + b;
    if a != "" {
      assert s[1..] == a[1..] + "-" + b && s[0] == a[0];
      HeadEndsAtHyphen(a[1..], b);
    }
  }

  ghost predicate AreDigits(id: string)
    ensures AreDigits(id) <==> IsNumeric(id)
  {
    |id| > 0 && forall c <- id :: '0' <= c <= '9'
  }

  /** Three numbers with a dot between and, after a hyphen, a prerelease of letters, digits, dots and hyphens. */
  ghost predicate IsTextOf(s: string, v: Version, a: string, b: string, c: string) {
    && AreDigits(a) && AreDigits(b) && AreDigits(c)
    && v.base == Base(NumberOf(a), NumberOf(b), NumberOf(c))
    && (v.pre.None? ==> s == a + "." + (b + "." + c))
    && (v.pre.Some? ==>
          && s == a + "." + (b + "." + c) + "-" + v.pre.value && v.pre.value != ""
          && forall x <- v.pre.value :: '0' <= x <= '9' || 'a' <= x <= 'z' || 'A' <= x <= 'Z' || x == '.' || x == '-')
  }

  lemma NumbersAreIdentifiers(a: string, b: string, c: string)
    requires IsNumeric(a) && IsNumeric(b) && IsNumeric(c)
    ensures var head := a + "." + (b + "." + c);
            '-' !in head && Split(head) == [a, b, c]
  {
    assert '.' !in a && '.' !in b && '.' !in c;
    SplitAtDot(a, b + "." + c);
    SplitAtDot(b, c);
    SplitUndotted(c);
  }

  lemma {:induction false} NoHyphen(s: string)
    requires '-' !in s
    ensures BeforeHyphen(s) == s
  {
    if s != "" { NoHyphen(s[1..]); }
  }

  lemma TextParses(s: string, v: Version, a: string, b: string, c: string)
    requires IsTextOf(s, v, a, b, c)
    ensures Parse(s) == Some(v)
  {
    hide Split, NumberOf, BeforeHyphen, IsNumeric;
    var head := a + "." + (b + "." + c);
    NumbersAreIdentifiers(a, b, c);
    if v.pre.None? {
      NoHyphen(head);
    } else {
      HeadEndsAtHyphen(head, v.pre.value);
      assert s[|head| + 1..] == v.pre.value;
    }
  }

  lemma ParsedIsText(s: string) returns (a: string, b: string, c: string)
    requires Parse(s).Some?
    ensures IsTextOf(s, Parse(s).value, a, b, c)
  {
    hide Split, NumberOf, BeforeHyphen, IsNumeric;
    var head := BeforeHyphen(s);
    var ids := Split(head);
    a, b, c := ids[0], ids[1], ids[2];
    assert ids == [a] + [b, c] && [b, c] == [b] + [c];
    JoinCons(a, [b, c]);
    JoinCons(b, [c]);
    assert head == a + "." + (b + "." + c);
    if head != s { assert s == head + "-" + s[|head| + 1..]; }
  }

  /** A text is read as a version exactly when it is one, and as that one. */
  lemma ParsesIff(s: string, v: Version)
    ensures Parse(s) == Some(v) <==> exists a, b, c :: IsTextOf(s, v, a, b, c)
  {
    if Parse(s) == Some(v) { var a, b, c := ParsedIsText(s); }
    if a, b, c :| IsTextOf(s, v, a, b, c) { TextParses(s, v, a, b, c); }
  }

  /** A version, of a channel or not, is read back from its text as what it is. */
  lemma VersionsParseBack(v: Version)
    requires v.pre.Some? ==> v.pre.value != "" && forall c <- v.pre.value :: IsPrereleaseChar(c)
    ensures Parse(Render(v)) == Some(v)
  {
    NumberOfDecimal(v.base.major);
    NumberOfDecimal(v.base.minor);
    NumberOfDecimal(v.base.patch);
    hide NumberOf, IsNumeric, Parse;
    assert v.pre.None? ==> Render(v) == RenderBase(v.base);
    TextParses(Render(v), v, Decimal(v.base.major), Decimal(v.base.minor), Decimal(v.base.patch));
  }

  /** As is every version of a channel. */
  lemma NextVersionParsesBack(previous: Version, stable: Base, tag: string)
    requires IsTag(tag)
    ensures Parse(Render(NextVersion(previous, stable, tag))) == Some(NextVersion(previous, stable, tag))
  {
    ChannelIsText(previous, stable, tag);
    hide NextVersion, Parse, Render, IsPrereleaseChar;
    VersionsParseBack(NextVersion(previous, stable, tag));
  }

  lemma ChannelIsText(previous: Version, stable: Base, tag: string)
    requires IsTag(tag)
    ensures var v := NextVersion(previous, stable, tag);
            v.base == stable && v.pre.Some? && v.pre.value != "" && forall c <- v.pre.value :: IsPrereleaseChar(c)
  {
  }

  // ---- All pinned packages ----

  /** A pinned package, as its manifest stood before Changesets ran. */
  datatype Pinned = Pinned(name: string, version: Version, tag: string)

  /** The version a pinned package is given: untouched by Changesets, it keeps its own. */
  function Repinned(pkg: Pinned, computed: Option<Version>): Option<Version> {
    if computed.None? || computed.value == pkg.version then computed
    else Some(NextVersion(pkg.version, computed.value.base, pkg.tag))
  }

  /**
   * A pinned package Changesets touched is given the base computed, on its own channel: counting on
   * when its version before was on that base and channel, and from 0 otherwise.
   */
  lemma RepinnedIs(pkg: Pinned, computed: Version)
    requires IsTag(pkg.tag)
    ensures Repinned(pkg, None) == None && Repinned(pkg, Some(pkg.version)) == Some(pkg.version)
    ensures computed != pkg.version ==>
              var given := Repinned(pkg, Some(computed));
              && given.Some? && given.value.base == computed.base
              && (pkg.version.base != computed.base ==> given.value.pre == Some(pkg.tag + "." + "0"))
              && (pkg.version.base == computed.base ==>
                    && (forall n: nat | pkg.version.pre == Some(pkg.tag + "." + Decimal(n)) :: given.value.pre == Some(pkg.tag + "." + Decimal(n + 1)))
                    && (Counter(pkg.version.pre, pkg.tag) < 0 ==> given.value.pre == Some(pkg.tag + "." + "0")))
  {
    assert Decimal(0) == "0";
    hide Counter, IsTag, Decimal;
    if computed != pkg.version && pkg.version.base == computed.base {
      forall n: nat | pkg.version.pre == Some(pkg.tag + "." + Decimal(n))
        ensures Repinned(pkg, Some(computed)).value.pre == Some(pkg.tag + "." + Decimal(n + 1))
      {
        ChannelIdentifiers(pkg.tag, n);
        assert pkg.version.pre == Some(OnChannel(pkg.tag, n));
      }
    }
  }

  function VersionIn(manifests: map<string, Version>, name: string): Option<Version> {
    if name in manifests then Some(manifests[name]) else None
  }

  /** The loop of `main`: only pinned packages Changesets touched are rewritten, each on its own. */
  method Repin(pinned: seq<Pinned>, computed: map<string, Version>) returns (manifests: map<string, Version>)
    requires forall i, j | 0 <= i < j < |pinned| :: pinned[i].name != pinned[j].name
    ensures manifests.Keys == computed.Keys
    ensures forall i | 0 <= i < |pinned| ::
              VersionIn(manifests, pinned[i].name) == Repinned(pinned[i], VersionIn(computed, pinned[i].name))
    ensures forall name <- computed :: (forall i | 0 <= i < |pinned| :: pinned[i].name != name) ==> manifests[name] == computed[name]
  {
    manifests := computed;
    for n := 0 to |pinned|
      invariant manifests.Keys == computed.Keys
      invariant forall i | 0 <= i < n ::
                  VersionIn(manifests, pinned[i].name) == Repinned(pinned[i], VersionIn(computed, pinned[i].name))
      invariant forall name <- computed :: (forall i | 0 <= i < n :: pinned[i].name != name) ==> manifests[name] == computed[name]
    {
      var pkg := pinned[n];
      if pkg.name in manifests && manifests[pkg.name] != pkg.version {
        manifests := manifests[pkg.name := NextVersion(pkg.version, manifests[pkg.name].base, pkg.tag)];
      }
    }
  }
}
