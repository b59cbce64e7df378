/** Artifact names `{key}-{window}-{uid}-v{version}.pt` and the two ways the
    store reads a window number back out of a name: by splitting on '-'
    (local files) and by an anchored pattern (remote objects). */
module Naming {
  import opened Common

  // ---------------------------------------------------------------------------
  // Decimal text of a window number (Python's str(window))

  function DigitChar(d: nat): char
    requires d < 10
  {
    ('0' as int + d) as char
  }

  predicate IsDigit(c: char) { '0' <= c <= '9' }

  predicate AllDigits(s: string) { forall i :: 0 <= i < |s| ==> IsDigit(s[i]) }

  function NatToString(n: nat): (s: string)
    ensures |s| > 0 && AllDigits(s)
  {
    if n < 10 then [DigitChar(n)] else NatToString(n / 10) + [DigitChar(n % 10)]
  }

  /** The value of a string of decimal digits, most significant first. */
  function DigitsValue(s: string): nat
    requires AllDigits(s)
  {
    if s == [] then 0
    else DigitsValue(s[..|s| - 1]) * 10 + (s[|s| - 1] as int - '0' as int)
  }

  /** `int(s)` on a window field: a non-empty run of ASCII digits, or a failure. */
  function ParseNat(s: string): Option<nat> {
    if |s| > 0 && AllDigits(s) then Some(DigitsValue(s)) else None
  }

  lemma {:induction false} ParseNatToString(n: nat)
    ensures ParseNat(NatToString(n)) == Some(n)
  {
    var s := NatToString(n);
    if n >= 10 {
      ParseNatToString(n / 10);
      assert s[..|s| - 1] == NatToString(n / 10);
      assert s[|s| - 1] as int - '0' as int == n % 10;
    } else {
      assert s == [DigitChar(n)];
      assert s[..|s| - 1] == [];
      assert DigitsValue(s) == DigitsValue([]) * 10 + (s[0] as int - '0' as int);
    }
  }

  // ---------------------------------------------------------------------------
  // The artifact name

  function ArtifactName(key: string, window: nat, uid: string, version: string): string {
    key + "-" + NatToString(window) + "-" + uid + "-v" + version + ".pt"
  }

  /** `-{uid}-v{version}.pt`, the tail every artifact of one uid and version shares. */
  function NameSuffix(uid: string, version: string): string {
    "-" + uid + "-v" + version + ".pt"
  }

  predicate StartsWith(s: string, prefix: string) {
    |prefix| <= |s| && s[..|prefix|] == prefix
  }

  predicate EndsWith(s: string, suffix: string) {
    |suffix| <= |s| && s[|s| - |suffix|..] == suffix
  }

  lemma ArtifactNameShape(key: string, window: nat, uid: string, version: string)
    ensures ArtifactName(key, window, uid, version)
         == (key + "-") + NatToString(window) + NameSuffix(uid, version)
  {
  }

  // ---------------------------------------------------------------------------
  // str.split(sep)

  /** Python's `s.split(sep)` for a one-character separator: the pieces
      between separators, empty pieces included. */
  function Split(s: string, sep: char): (parts: seq<string>)
    ensures |parts| >= 1
  {
    if s == [] then [[]]
    else
      var rest := Split(s[1..], sep);
      if s[0] == sep then [[]] + rest else [[s[0]] + rest[0]] + rest[1..]
  }

  lemma {:induction false} SplitAfterPiece(a: string, sep: char, rest: string)
    requires sep !in a
    ensures Split(a + [sep] + rest, sep) == [a] + Split(rest, sep)
  {
    if a != [] {
      assert (a + [sep] + rest)[1..] == a[1..] + [sep] + rest;
      SplitAfterPiece(a[1..], sep, rest);
      assert [a[0]] + a[1..] == a;
    } else {
      assert a + [sep] + rest == [sep] + rest;
    }
  }

  lemma {:induction false} SplitWithSeparator(s: string, sep: char)
    requires sep in s
    ensures |Split(s, sep)| >= 2
  {
    if s[0] != sep {
      SplitWithSeparator(s[1..], sep);
    }
  }

  // ---------------------------------------------------------------------------
  // Window parsing

  /** The local scan in cleanup_local_gradients: the name must start with
      `{key}-` and end with `-{uid}-v{version}.pt`; then it is split on '-',
      and with at least four pieces the second piece is read as the window. */
  function ParseLocalWindow(file: string, key: string, uid: string, version: string): Option<nat> {
    if StartsWith(file, key + "-") && EndsWith(file, NameSuffix(uid, version)) then
      var parts := Split(file, '-');
      if |parts| >= 4 then ParseNat(parts[1]) else None
    else None
  }

  /** The remote scan in cleanup_remote_gradients: the whole name must be
      `{key}-` then one or more digits then `-{uid}-v{version}.pt`, and the
      digits are the window. */
  function ParseRemoteWindow(name: string, key: string, uid: string, version: string): Option<nat> {
    var prefix := key + "-";
    var suffix := NameSuffix(uid, version);
    if |prefix| + |suffix| <= |name| && StartsWith(name, prefix) && EndsWith(name, suffix) then
      ParseNat(name[|prefix|..|name| - |suffix|])
    else None
  }

  /** A remote name that parses is exactly an artifact name spelled with the
      parsed digits (leading zeros aside, the artifact name of that window). */
  lemma ParseRemoteWindowShape(name: string, key: string, uid: string, version: string)
    requires ParseRemoteWindow(name, key, uid, version).Some?
    ensures var digits := name[|key| + 1..|name| - |NameSuffix(uid, version)|];
            AllDigits(digits) && |digits| > 0 &&
            name == (key + "-") + digits + NameSuffix(uid, version)
  {
    var prefix := key + "-";
    var suffix := NameSuffix(uid, version);
    var digits := name[|prefix|..|name| - |suffix|];
    assert name == name[..|prefix|] + digits + name[|name| - |suffix|..];
  }

  /** The remote scan reads back the window of every artifact name. */
  lemma RemoteWindowOfArtifact(key: string, window: nat, uid: string, version: string)
    ensures ParseRemoteWindow(ArtifactName(key, window, uid, version), key, uid, version) == Some(window)
  {
    var name := ArtifactName(key, window, uid, version);
    var prefix := key + "-";
    var suffix := NameSuffix(uid, version);
    ArtifactNameShape(key, window, uid, version);
    assert name[..|prefix|] == prefix;
    assert name[|name| - |suffix|..] == suffix;
    assert name[|prefix|..|name| - |suffix|] == NatToString(window);
    ParseNatToString(window);
  }

  /** The local scan reads back the window of every artifact name whose key has
      no '-' (with a '-' in the key, the second piece is part of the key). */
  lemma LocalWindowOfArtifact(key: string, window: nat, uid: string, version: string)
    requires '-' !in key
    ensures ParseLocalWindow(ArtifactName(key, window, uid, version), key, uid, version) == Some(window)
  {
    ArtifactNameMatches(key, window, uid, version);
    ArtifactNamePieces(key, window, uid, version);
    ParseNatToString(window);
  }

  /** An artifact name starts with its key and a '-', and ends with its suffix. */
  lemma ArtifactNameMatches(key: string, window: nat, uid: string, version: string)
    ensures var name := ArtifactName(key, window, uid, version);
            StartsWith(name, key + "-") && EndsWith(name, NameSuffix(uid, version))
  {
    var name := ArtifactName(key, window, uid, version);
    ArtifactNameShape(key, window, uid, version);
    assert name[..|key + "-"|] == key + "-";
    assert name[|name| - |NameSuffix(uid, version)|..] == NameSuffix(uid, version);
  }

  /** Split on '-', an artifact name whose key has no '-' has at least four
      pieces, the second being the window's digits. */
  lemma ArtifactNamePieces(key: string, window: nat, uid: string, version: string)
    requires '-' !in key
    ensures var parts := Split(ArtifactName(key, window, uid, version), '-');
            |parts| >= 4 && parts[1] == NatToString(window)
  {
    var digits := NatToString(window);
    var tail := uid + "-v" + version + ".pt";
    assert ArtifactName(key, window, uid, version) == key + ['-'] + (digits + ['-'] + tail);
    SplitAfterPiece(key, '-', digits + ['-'] + tail);
    assert '-' !in digits by {
      forall i | 0 <= i < |digits| ensures digits[i] != '-' {
        assert IsDigit(digits[i]);
      }
    }
    SplitAfterPiece(digits, '-', tail);
    assert '-' in tail by {
      assert tail[|uid|] == '-';
    }
    SplitWithSeparator(tail, '-');
  }

  /** Store and fetch address one object per (key, window, uid, version):
      distinct windows never share a name. */
  lemma ArtifactNameInjective(key: string, w1: nat, w2: nat, uid: string, version: string)
    requires ArtifactName(key, w1, uid, version) == ArtifactName(key, w2, uid, version)
    ensures w1 == w2
  {
    RemoteWindowOfArtifact(key, w1, uid, version);
    RemoteWindowOfArtifact(key, w2, uid, version);
  }
}
