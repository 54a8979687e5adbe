/** Names built for cluster objects: DNS labels of section 2.1 of RFC 1123, at most 63 characters. */
module DnsLabels {
  import opened Collections

  predicate Alphanumeric(c: char) { 'a' <= c <= 'z' || '0' <= c <= '9' }

  predicate LabelChar(c: char) { Alphanumeric(c) || c == '-' }

  predicate LabelChars(s: string) { forall i :: 0 <= i < |s| ==> LabelChar(s[i]) }

  /** A valid label. */
  predicate IsLabel(s: string) {
    0 < |s| <= 63 && LabelChars(s) && Alphanumeric(s[0]) && Alphanumeric(s[|s| - 1])
  }

  predicate EndsWith(s: string, suffix: string) { |suffix| <= |s| && s[|s| - |suffix|..] == suffix }

  // ----- The string operations of the library

  /** Strings are bytes; loops over them decode UTF-8. */
  type Byte = b: int | 0 <= b < 256

  type Bytes = seq<Byte>

  predicate Between(b: Bytes, k: nat, lo: int, hi: int) { k < |b| && lo <= b[k] <= hi }

  predicate Continues(b: Bytes, k: nat) { Between(b, k, 0x80, 0xBF) }

  /** How many bytes the first character takes; a byte that starts no well-formed sequence stands for itself. */
  function Width(b: Bytes): (w: nat)
    requires b != []
    ensures 1 <= w <= |b| && (b[0] < 0x80 ==> w == 1)
  {
    if 0xC2 <= b[0] <= 0xDF && Continues(b, 1) then 2
    else if 0xE0 <= b[0] <= 0xEF && Continues(b, 2)
            && Between(b, 1, if b[0] == 0xE0 then 0xA0 else 0x80, if b[0] == 0xED then 0x9F else 0xBF) then 3
    else if 0xF0 <= b[0] <= 0xF4 && Continues(b, 2) && Continues(b, 3)
            && Between(b, 1, if b[0] == 0xF0 then 0x90 else 0x80, if b[0] == 0xF4 then 0x8F else 0xBF) then 4
    else 1
  }

  /** Lower case of an ASCII character. */
  function Lower(c: char): char { if 'A' <= c <= 'Z' then c - 'A' + 'a' else c }

  /**
   * The first character in lower case, or a hyphen if that is no label character. Of the characters outside ASCII
   * only U+0130 and U+212A have a lower case that is: i and k.
   */
  function CleanFirst(b: Bytes): (c: char)
    requires b != []
    ensures LabelChar(c)
  {
    if b[0] < 0x80 then (if LabelChar(Lower(b[0] as char)) then Lower(b[0] as char) else '-')
    else if Width(b) == 2 && b[..2] == [0xC4, 0xB0] then 'i'
    else if Width(b) == 3 && b[..3] == [0xE2, 0x84, 0xAA] then 'k'
    else '-'
  }

  /** Lower case with everything else than label characters replaced by hyphens. */
  function Sanitize(b: Bytes): (r: string)
    ensures |r| <= |b| && LabelChars(r)
    decreases |b|
  {
    if b == [] then "" else [CleanFirst(b)] + Sanitize(b[Width(b)..])
  }

  function TrimLeft(s: string): (r: string)
    ensures |r| <= |s| && s[|s| - |r|..] == r
    ensures r == "" || r[0] != '-'
    ensures forall i :: 0 <= i < |s| - |r| ==> s[i] == '-'
  {
    if s != "" && s[0] == '-' then TrimLeft(s[1..]) else s
  }

  function TrimRight(s: string): (r: string)
    ensures r <= s
    ensures r == "" || r[|r| - 1] != '-'
    ensures forall i :: |r| <= i < |s| ==> s[i] == '-'
  {
    if s != "" && s[|s| - 1] == '-' then TrimRight(s[..|s| - 1]) else s
  }

  function Trim(s: string): string { TrimRight(TrimLeft(s)) }

  // ----- A base name with a suffix

  function CleanBase(baseName: Bytes): string { Trim(Sanitize(baseName)) }

  /** None: the slice expression for an overlong suffix is out of range and the call panics. */
  function NormalizeDNS1123Label(baseName: Bytes, suffix: string): Option<string> {
    Attach(CleanBase(baseName), suffix)
  }

  function Attach(base: string, suffix: string): Option<string> {
    var name := if base == "" then suffix else base + "-" + suffix;
    if |name| <= 63 then Some(name)
    else if 62 - |suffix| > 0 then Some(TrimRight(base[..62 - |suffix|]) + "-" + suffix)
    else if |suffix| >= 63 then Some(suffix[..63])
    else None
  }

  lemma TrimmedIsClean(s: string)
    requires LabelChars(s)
    ensures LabelChars(Trim(s)) && |Trim(s)| <= |s|
    ensures Trim(s) != "" ==> Alphanumeric(Trim(s)[0]) && Alphanumeric(Trim(s)[|Trim(s)| - 1])
  {
    var t := TrimLeft(s);
    TrimmedLeft(s);
    var r := TrimRight(t);
    assert r != "" ==> r[0] == t[0] && LabelChar(r[0]) && LabelChar(r[|r| - 1]);
  }

  lemma TrimmedLeft(s: string)
    requires LabelChars(s)
    ensures LabelChars(TrimLeft(s))
  {
    var t := TrimLeft(s);
    forall i | 0 <= i < |t| ensures LabelChar(t[i]) {
      assert t[i] == s[|s| - |t|..][i];
    }
  }

  /** A base that starts with an alphanumeric character, a hyphen and a valid suffix make a valid label. */
  lemma JoinedIsLabel(base: string, suffix: string)
    requires base != "" && LabelChars(base) && Alphanumeric(base[0]) && IsLabel(suffix) && |base| + 1 + |suffix| <= 63
    ensures IsLabel(base + "-" + suffix) && EndsWith(base + "-" + suffix, suffix)
  {
    var s := base + "-" + suffix;
    assert forall i :: 0 <= i < |suffix| ==> s[|base| + 1 + i] == suffix[i];
    assert s[|s| - |suffix|..] == suffix;
  }

  lemma TruncatedBase(base: string, n: nat)
    requires 0 < n <= |base| && LabelChars(base) && Alphanumeric(base[0])
    ensures var t := TrimRight(base[..n]); t != "" && |t| <= n && LabelChars(t) && t[0] == base[0]
  {
    var t := TrimRight(base[..n]);
    assert base[..n][0] == base[0];
  }

  /**
   * For a valid suffix the call succeeds, with a valid label that ends in the suffix, except for a suffix
   * of 62 characters after a base name with anything usable in it: then it panics.
   */
  lemma NormalizedIsLabel(baseName: Bytes, suffix: string)
    requires IsLabel(suffix)
    ensures NormalizeDNS1123Label(baseName, suffix).None? <==> |suffix| == 62 && CleanBase(baseName) != ""
    ensures NormalizeDNS1123Label(baseName, suffix).Some? ==>
      var name := NormalizeDNS1123Label(baseName, suffix).value; IsLabel(name) && EndsWith(name, suffix)
  {
    TrimmedIsClean(Sanitize(baseName));
    AttachedIsLabel(CleanBase(baseName), suffix);
  }

  lemma AttachedIsLabel(base: string, suffix: string)
    requires IsLabel(suffix) && LabelChars(base) && (base != "" ==> Alphanumeric(base[0]))
    ensures Attach(base, suffix).None? <==> |suffix| == 62 && base != ""
    ensures Attach(base, suffix).Some? ==>
      var name := Attach(base, suffix).value; IsLabel(name) && EndsWith(name, suffix)
  {
    if base == "" || |suffix| == 63 {
      assert suffix[..|suffix|] == suffix && suffix[0..] == suffix;
    } else if |base| + 1 + |suffix| <= 63 {
      JoinedIsLabel(base, suffix);
    } else if |suffix| < 62 {
      TruncatedBase(base, 62 - |suffix|);
      JoinedIsLabel(TrimRight(base[..62 - |suffix|]), suffix);
    }
  }

  /** Label characters as bytes. */
  predicate LabelBytes(b: Bytes) { forall i :: 0 <= i < |b| ==> 97 <= b[i] <= 122 || 48 <= b[i] <= 57 || b[i] == 45 }

  function LabelText(b: Bytes): (s: string)
    requires LabelBytes(b)
    ensures |s| == |b| && forall i :: 0 <= i < |b| ==> s[i] == b[i] as char
  {
    seq(|b|, i requires 0 <= i < |b| => b[i] as char)
  }

  lemma {:induction false} LabelTextIsKept(b: Bytes)
    requires LabelBytes(b)
    ensures Sanitize(b) == LabelText(b)
  {
    if b != [] { LabelTextIsKept(b[1..]); }
  }

  lemma CleanLabelStays(b: Bytes)
    requires LabelBytes(b) && b != [] && b[0] != 45 && b[|b| - 1] != 45
    ensures CleanBase(b) == LabelText(b)
  {
    LabelTextIsKept(b);
  }

  /** The most of a base that fits, less the hyphens it then ends in. */
  predicate MostOf(kept: string, base: string, room: nat) {
    kept <= base && 0 < |kept| <= room <= |base| && forall i :: |kept| <= i < room ==> base[i] == '-'
  }

  lemma TrimmedIsMost(base: string, room: nat)
    requires 0 < room <= |base| && base[0] != '-'
    ensures MostOf(TrimRight(base[..room]), base, room)
  {
    var cut := base[..room];
    var kept := TrimRight(cut);
    assert cut[0] == base[0];
    assert forall i :: 0 <= i < room ==> cut[i] == base[i];
    assert cut <= base;
  }

  /**
   * A base name that is a label itself is kept whole if there is room for it; if not, the most of it that leaves room
   * for the suffix is kept, less the hyphens it then ends in.
   */
  lemma BaseNameSurvives(baseName: Bytes, suffix: string) returns (kept: string)
    requires LabelBytes(baseName) && baseName != [] && baseName[0] != 45 && baseName[|baseName| - 1] != 45
    requires IsLabel(suffix) && |suffix| < 62
    ensures NormalizeDNS1123Label(baseName, suffix) == Some(kept + "-" + suffix)
    ensures if |baseName| + 1 + |suffix| <= 63 then kept == LabelText(baseName)
            else MostOf(kept, LabelText(baseName), 62 - |suffix|)
  {
    var base, room := LabelText(baseName), 62 - |suffix|;
    CleanLabelStays(baseName);
    if |base| <= room {
      kept := base;
    } else {
      kept := TrimRight(base[..room]);
      TrimmedIsMost(base, room);
    }
  }

  // ----- Temporary namespaces

  const HYPHEN: Bytes := [45]

  function Zeros(n: nat): (z: Bytes)
    ensures |z| == n
  {
    seq(n, _ => 48)
  }

  /** The first eight bytes of the UID, padded with zeros. */
  function UidSuffix(uid: Bytes): (s: Bytes)
    ensures |s| == 8
  {
    if |uid| >= 8 then uid[..8] else uid + Zeros(8 - |uid|)
  }

  function JoinParts(prefix: Bytes, vmNamespace: Bytes, vmName: Bytes, suffix: Bytes): Bytes {
    (if prefix != [] then prefix + HYPHEN else []) + vmNamespace + HYPHEN + vmName + HYPHEN + suffix
  }

  function Shorten(name: Bytes, suffix: Bytes): Bytes
    requires |suffix| == 8
  {
    if |name| <= 63 then name else name[..54] + HYPHEN + suffix
  }

  function GenerateTemporaryVMFRNamespaceName(prefix: Bytes, vmNamespace: Bytes, vmName: Bytes, uid: Bytes): string {
    var suffix := UidSuffix(uid);
    Trim(Sanitize(Shorten(JoinParts(prefix, vmNamespace, vmName, suffix), suffix)))
  }

  /** The bytes of lower-case hexadecimal digits, and their text. */
  predicate LowerHex(b: Bytes) { forall i :: 0 <= i < |b| ==> 48 <= b[i] <= 57 || 97 <= b[i] <= 102 }

  function Text(b: Bytes): (s: string)
    requires LowerHex(b)
    ensures |s| == |b| && forall i :: 0 <= i < |b| ==> s[i] == b[i] as char && Alphanumeric(s[i])
  {
    seq(|b|, i requires 0 <= i < |b| => b[i] as char)
  }

  /** ASCII text after a string never changes how the string is read. */
  lemma WidthStays(b: Bytes, suffix: Bytes)
    requires b != [] && LowerHex(suffix)
    ensures Width(b + suffix) == Width(b) && CleanFirst(b + suffix) == CleanFirst(b)
  {
    var s := b + suffix;
    assert forall k :: 0 <= k < |b| ==> s[k] == b[k];
    assert forall k :: |b| <= k < |s| ==> s[k] == suffix[k - |b|];
    assert forall k: nat :: k < 4 ==> (Continues(s, k) <==> Continues(b, k));
    assert Width(b) == 2 ==> s[..2] == b[..2];
    assert Width(b) == 3 ==> s[..3] == b[..3];
  }

  lemma {:induction false} TextIsKept(suffix: Bytes)
    requires LowerHex(suffix)
    ensures Sanitize(suffix) == Text(suffix)
  {
    if suffix != [] { TextIsKept(suffix[1..]); }
  }

  lemma {:induction false} SanitizeKeepsEnd(b: Bytes, suffix: Bytes)
    requires LowerHex(suffix)
    ensures Sanitize(b + suffix) == Sanitize(b) + Text(suffix)
    decreases |b|
  {
    if b == [] {
      assert b + suffix == suffix;
      TextIsKept(suffix);
    } else {
      WidthStays(b, suffix);
      assert (b + suffix)[Width(b)..] == b[Width(b)..] + suffix;
      SanitizeKeepsEnd(b[Width(b)..], suffix);
    }
  }

  lemma {:induction false} TrimLeftKeepsEnd(front: string, end: string)
    requires end != "" && end[0] != '-'
    ensures exists kept :: TrimLeft(front + end) == kept + end
  {
    if front == "" {
      assert front + end == "" + end;
    } else if front[0] == '-' {
      assert (front + end)[1..] == front[1..] + end;
      TrimLeftKeepsEnd(front[1..], end);
    }
  }

  lemma TrimKeepsEnd(s: string, suffix: string)
    requires EndsWith(s, suffix) && suffix != "" && Alphanumeric(suffix[0]) && Alphanumeric(suffix[|suffix| - 1])
    ensures EndsWith(Trim(s), suffix)
  {
    var front := s[..|s| - |suffix|];
    assert s == front + suffix;
    TrimLeftKeepsEnd(front, suffix);
    var kept :| TrimLeft(s) == kept + suffix;
    TrimRightKeepsEnd(kept, suffix);
  }

  lemma TrimRightKeepsEnd(kept: string, end: string)
    requires end != "" && end[|end| - 1] != '-'
    ensures TrimRight(kept + end) == kept + end && EndsWith(kept + end, end)
  {
    var s := kept + end;
    assert s[|s| - 1] == end[|end| - 1];
  }

  /** What stands before the suffix. */
  lemma ShortenedEnds(prefix: Bytes, vmNamespace: Bytes, vmName: Bytes, suffix: Bytes) returns (front: Bytes)
    requires |suffix| == 8
    ensures var s := Shorten(JoinParts(prefix, vmNamespace, vmName, suffix), suffix); |s| <= 63 && s == front + suffix
  {
    front := (if prefix != [] then prefix + HYPHEN else []) + vmNamespace + HYPHEN + vmName + HYPHEN;
    assert JoinParts(prefix, vmNamespace, vmName, suffix) == front + suffix;
    if |front + suffix| > 63 { front := (front + suffix)[..54] + HYPHEN; }
  }

  /** A temporary namespace name is a valid label that ends in the UID suffix, whatever the VM and prefix are called. */
  lemma TemporaryNameIsLabel(prefix: Bytes, vmNamespace: Bytes, vmName: Bytes, uid: Bytes)
    requires LowerHex(UidSuffix(uid))
    ensures var name := GenerateTemporaryVMFRNamespaceName(prefix, vmNamespace, vmName, uid);
      IsLabel(name) && EndsWith(name, Text(UidSuffix(uid)))
  {
    var suffix := UidSuffix(uid);
    var s := Shorten(JoinParts(prefix, vmNamespace, vmName, suffix), suffix);
    var front := ShortenedEnds(prefix, vmNamespace, vmName, suffix);
    SanitizeKeepsEnd(front, suffix);
    assert EndsWith(Sanitize(s), Text(suffix));
    TrimKeepsEnd(Sanitize(s), Text(suffix));
    TrimmedIsClean(Sanitize(s));
  }

  /** Names of restores whose UIDs differ in their first eight characters never coincide. */
  lemma TemporaryNamesAreDistinct(prefix: Bytes, vmNamespace: Bytes, vmName: Bytes, uid: Bytes,
                                  prefix': Bytes, vmNamespace': Bytes, vmName': Bytes, uid': Bytes)
    requires |uid| >= 8 && |uid'| >= 8 && uid[..8] != uid'[..8] && LowerHex(uid[..8]) && LowerHex(uid'[..8])
    ensures GenerateTemporaryVMFRNamespaceName(prefix, vmNamespace, vmName, uid)
         != GenerateTemporaryVMFRNamespaceName(prefix', vmNamespace', vmName', uid')
  {
    TemporaryNameIsLabel(prefix, vmNamespace, vmName, uid);
    TemporaryNameIsLabel(prefix', vmNamespace', vmName', uid');
    TextDecides(uid[..8], uid'[..8]);
    EndDecides(GenerateTemporaryVMFRNamespaceName(prefix, vmNamespace, vmName, uid),
               GenerateTemporaryVMFRNamespaceName(prefix', vmNamespace', vmName', uid'),
               Text(UidSuffix(uid)), Text(UidSuffix(uid')));
  }

  lemma TextDecides(a: Bytes, b: Bytes)
    requires LowerHex(a) && LowerHex(b) && a != b && |a| == |b|
    ensures Text(a) != Text(b)
  {
    var k :| 0 <= k < |a| && a[k] != b[k];
    assert Text(a)[k] != Text(b)[k];
  }

  lemma EndDecides(name: string, name': string, end: string, end': string)
    requires EndsWith(name, end) && EndsWith(name', end') && |end| == |end'| && end != end'
    ensures name != name'
  {
  }

  lemma LabelBytesJoin(a: Bytes, b: Bytes)
    requires LabelBytes(a) && LabelBytes(b)
    ensures LabelBytes(a + b)
  {
  }

  lemma PartsAreLabelBytes(prefix: Bytes, vmNamespace: Bytes, vmName: Bytes, suffix: Bytes)
    requires LowerHex(suffix) && LabelBytes(prefix) && LabelBytes(vmNamespace) && LabelBytes(vmName)
    ensures LabelBytes(JoinParts(prefix, vmNamespace, vmName, suffix))
  {
    var front := if prefix != [] then prefix + HYPHEN else [];
    LabelBytesJoin(front, vmNamespace);
    LabelBytesJoin(front + vmNamespace, HYPHEN);
    LabelBytesJoin(front + vmNamespace + HYPHEN, vmName);
    LabelBytesJoin(front + vmNamespace + HYPHEN + vmName, HYPHEN);
    LabelBytesJoin(front + vmNamespace + HYPHEN + vmName + HYPHEN, suffix);
  }

  lemma PartsEnds(prefix: Bytes, vmNamespace: Bytes, vmName: Bytes, suffix: Bytes)
    requires vmNamespace != [] && suffix != []
    ensures var joined := JoinParts(prefix, vmNamespace, vmName, suffix);
      && joined != [] && joined[0] == (if prefix != [] then prefix[0] else vmNamespace[0])
      && joined[|joined| - 1] == suffix[|suffix| - 1]
      && |joined| == (if prefix != [] then |prefix| + 1 else 0) + |vmNamespace| + |vmName| + |suffix| + 2
  {
  }

  /** Parts that are labels and fit are joined by hyphens as they are. */
  lemma ShortNamesAreKept(prefix: Bytes, vmNamespace: Bytes, vmName: Bytes, uid: Bytes)
    requires LowerHex(UidSuffix(uid)) && LabelBytes(prefix) && LabelBytes(vmNamespace) && LabelBytes(vmName)
    requires (prefix != [] ==> prefix[0] != 45) && vmNamespace != [] && vmNamespace[0] != 45
    requires |prefix| + |vmNamespace| + |vmName| + 11 <= 63
    ensures var joined := JoinParts(prefix, vmNamespace, vmName, UidSuffix(uid));
      LabelBytes(joined) && GenerateTemporaryVMFRNamespaceName(prefix, vmNamespace, vmName, uid) == LabelText(joined)
  {
    PartsAreLabelBytes(prefix, vmNamespace, vmName, UidSuffix(uid));
    PartsEnds(prefix, vmNamespace, vmName, UidSuffix(uid));
    assert UidSuffix(uid)[7] != 45;
    KeptWhole(JoinParts(prefix, vmNamespace, vmName, UidSuffix(uid)), UidSuffix(uid));
  }

  lemma KeptWhole(name: Bytes, suffix: Bytes)
    requires |suffix| == 8 && 0 < |name| <= 63 && LabelBytes(name) && name[0] != 45 && name[|name| - 1] != 45
    ensures Trim(Sanitize(Shorten(name, suffix))) == LabelText(name)
  {
    CleanLabelStays(name);
  }
}
