/** Release versions of the registry: parsing, printing, precedence, requirements. */
module Versions {
  import opened Lexicographic
  import opened Text

  datatype Version = Version(major: nat, minor: nat, patch: nat, pre: string)

  // ---------------------------------------------------------------- parsing

  predicate IdentifierChar(c: char) { c == '-' || IsDigit(c) || 'A' <= c <= 'Z' || 'a' <= c <= 'z' }

  /** What ParseVersion accepts as one dot-separated prerelease identifier. */
  predicate ValidIdentifier(s: string)
  {
    && s != ""
    && (forall i :: 0 <= i < |s| ==> IdentifierChar(s[i]))
    && !(|s| > 1 && s[0] == '0' && ParseUint(s).Some?)
  }

  predicate ValidPre(pre: string)
  {
    var ids := Split(pre, '.');
    forall i :: 0 <= i < |ids| ==> ValidIdentifier(ids[i])
  }

  /** The versions that exist as parsed versions: components in the machine range. */
  predicate WellFormed(v: Version)
  {
    v.major < U64 && v.minor < U64 && v.patch < U64 && (v.pre == "" || ValidPre(v.pre))
  }

  function Core(v: Version): string
  {
    Join([Decimal(v.major), Decimal(v.minor), Decimal(v.patch)], '.')
  }

  function String(v: Version): string { if v.pre == "" then Core(v) else Core(v) + "-" + v.pre }

  function Trimmed(s: string): string { TrimSpace(TrimPrefix(s, 'v')) }

  /** One numeric component of the core. */
  function Component(s: string): Option<nat>
  {
    if s == "" || (|s| > 1 && s[0] == '0') then None else ParseUint(s)
  }

  function IndexOf(s: string, c: char): (k: nat)
    ensures k <= |s| && c !in s[..k]
    ensures k < |s| ==> s[k] == c
  {
    if s == "" || s[0] == c then 0 else
      var k := IndexOf(s[1..], c) + 1;
      assert s[..k] == [s[0]] + s[1..][..k - 1];
      k
  }

  function ParseCore(main: string, pre: string): Option<Version>
  {
    var p := Split(main, '.');
    if |p| != 3 then None
    else match (Component(p[0]), Component(p[1]), Component(p[2]))
      case (Some(a), Some(b), Some(c)) => Some(Version(a, b, c, pre))
      case _ => None
  }

  function Parse(s: string): Option<Version>
  {
    var t := Trimmed(s);
    if '+' in t then None
    else
      var k := IndexOf(t, '-');
      if k == |t| then ParseCore(t, "")
      else if t[k + 1..] == "" || !ValidPre(t[k + 1..]) then None
      else ParseCore(t[..k], t[k + 1..])
  }

  /** The validation of the prerelease part, identifier by identifier. */
  method CheckPre(pre: string) returns (ok: bool)
    ensures ok == ValidPre(pre)
  {
    var ids := Split(pre, '.');
    for i := 0 to |ids|
      invariant forall j :: 0 <= j < i ==> ValidIdentifier(ids[j])
    {
      if ids[i] == "" { return false; }
      for j := 0 to |ids[i]|
        invariant forall m :: 0 <= m < j ==> IdentifierChar(ids[i][m])
      {
        if !IdentifierChar(ids[i][j]) { return false; }
      }
      if |ids[i]| > 1 && ids[i][0] == '0' && ParseUint(ids[i]).Some? { return false; }
    }
    return true;
  }

  /** The parser as the source runs it: cut the prerelease off, then fill the
      three components one by one. */
  method ParseVersion(s: string) returns (r: Option<Version>)
    ensures r == Parse(s)
  {
    var main := Trimmed(s);
    if '+' in main { return None; }
    var pre := "";
    var k := IndexOf(main, '-');
    if k < |main| {
      pre, main := main[k + 1..], main[..k];
      if pre == "" { return None; }
      var ok := CheckPre(pre);
      if !ok { return None; }
    }
    var p := Split(main, '.');
    if |p| != 3 { return None; }
    var vals := [0, 0, 0];
    for i := 0 to 3
      invariant |vals| == 3
      invariant forall j :: 0 <= j < i ==> Component(p[j]) == Some(vals[j])
    {
      if p[i] == "" || (|p[i]| > 1 && p[i][0] == '0') { return None; }
      var n := ParseUint(p[i]);
      if n.None? { return None; }
      vals := vals[i := n.value];
    }
    assert Component(p[0]) == Some(vals[0]) && Component(p[1]) == Some(vals[1]) && Component(p[2]) == Some(vals[2]);
    r := Some(Version(vals[0], vals[1], vals[2], pre));
  }

  lemma {:induction false} ComponentExact(s: string, n: nat)
    ensures Component(s) == Some(n) <==> n < U64 && s == Decimal(n)
  {
    DecimalIsCanonical(n);
    if Component(s) == Some(n) { CanonicalIsDecimal(s); }
  }

  lemma {:induction false} DigitsOnly(n: nat, c: char)
    requires !IsDigit(c)
    ensures c !in Decimal(n)
  {
    DecimalIsCanonical(n);
  }

  lemma {:induction false} ParseCoreExact(main: string, pre: string, v: Version)
    ensures ParseCore(main, pre) == Some(v) <==>
            v.pre == pre && v.major < U64 && v.minor < U64 && v.patch < U64 && main == Core(v)
  {
    var p := Split(main, '.');
    JoinSplit(main, '.');
    var q := [Decimal(v.major), Decimal(v.minor), Decimal(v.patch)];
    DigitsOnly(v.major, '.'); DigitsOnly(v.minor, '.'); DigitsOnly(v.patch, '.');
    SplitJoin(q, '.');
    if |p| == 3 {
      ComponentExact(p[0], v.major);
      ComponentExact(p[1], v.minor);
      ComponentExact(p[2], v.patch);
      if p[0] == q[0] && p[1] == q[1] && p[2] == q[2] { assert p == q; }
    }
  }

  lemma {:induction false} CoreChars(v: Version)
    ensures Core(v) != "" && IsDigit(Core(v)[0])
    ensures forall i :: 0 <= i < |Core(v)| ==> IsDigit(Core(v)[i]) || Core(v)[i] == '.'
  {
    DecimalIsCanonical(v.major);
    DecimalIsCanonical(v.minor);
    DecimalIsCanonical(v.patch);
    assert Core(v) == Decimal(v.major) + ['.'] + (Decimal(v.minor) + ['.'] + Decimal(v.patch)) by {
      var q := [Decimal(v.major), Decimal(v.minor), Decimal(v.patch)];
      assert q[1..][1..] == [Decimal(v.patch)];
      assert Join(q[1..], '.') == Decimal(v.minor) + ['.'] + Decimal(v.patch);
    }
  }

  lemma {:induction false} PreChars(pre: string)
    requires ValidPre(pre)
    ensures forall i :: 0 <= i < |pre| ==> IdentifierChar(pre[i]) || pre[i] == '.'
  {
    JoinSplit(pre, '.');
    JoinChars(Split(pre, '.'));
  }

  lemma {:induction false} JoinChars(ids: seq<string>)
    requires ids != [] && forall i :: 0 <= i < |ids| ==> ValidIdentifier(ids[i])
    ensures var s := Join(ids, '.'); forall i :: 0 <= i < |s| ==> IdentifierChar(s[i]) || s[i] == '.'
  {
    if |ids| > 1 {
      JoinChars(ids[1..]);
      var s := Join(ids, '.');
      forall i | 0 <= i < |s| ensures IdentifierChar(s[i]) || s[i] == '.' {
        if i > |ids[0]| { assert s[i] == Join(ids[1..], '.')[i - |ids[0]| - 1]; }
        else if i < |ids[0]| { assert s[i] == ids[0][i]; }
      }
    }
  }

  lemma {:induction false} FirstOccurrence(a: string, b: string, c: char)
    requires c !in a && (b == "" || b[0] == c)
    ensures IndexOf(a + b, c) == |a|
  {
    if a == "" {
      assert a + b == b;
    } else {
      assert a == [a[0]] + a[1..] && (a + b)[1..] == a[1..] + b;
      FirstOccurrence(a[1..], b, c);
    }
  }

  /** A printed version is left alone by trimming, and splits where it should. */
  lemma {:induction false} StringShape(v: Version)
    requires WellFormed(v)
    ensures Trimmed(String(v)) == String(v)
    ensures '+' !in String(v)
    ensures IndexOf(String(v), '-') == |Core(v)|
  {
    var s := String(v);
    CoreChars(v);
    if v.pre != "" { PreChars(v.pre); }
    assert forall i :: 0 <= i < |s| ==> IdentifierChar(s[i]) || s[i] == '.';
    forall c | IdentifierChar(c) || c == '.' ensures !IsSpace(c) && c != '+' {}
    assert s[0] == Core(v)[0];
    FirstOccurrence(Core(v), if v.pre == "" then "" else "-" + v.pre, '-');
    assert Core(v) + "" == Core(v) && Core(v) + ("-" + v.pre) == Core(v) + "-" + v.pre;
  }

  /** The parser's language and its meaning: it accepts exactly the trimmed
      spelling of a well-formed version and returns that version. */
  lemma {:induction false} ParseExact(s: string, v: Version)
    ensures Parse(s) == Some(v) <==> WellFormed(v) && Trimmed(s) == String(v)
  {
    var t := Trimmed(s);
    if WellFormed(v) && t == String(v) { ParsesPrinted(s, v); }
    if Parse(s) == Some(v) { ParsedPrints(s, v); }
  }

  lemma {:induction false} ParsesPrinted(s: string, v: Version)
    requires WellFormed(v) && Trimmed(s) == String(v)
    ensures Parse(s) == Some(v)
  {
    var t, k := Trimmed(s), |Core(v)|;
    StringShape(v);
    assert t[..k] == Core(v);
    ParseCoreExact(Core(v), v.pre, v);
    if v.pre != "" { assert t[k + 1..] == v.pre; }
  }

  lemma {:induction false} ParsedPrints(s: string, v: Version)
    requires Parse(s) == Some(v)
    ensures WellFormed(v) && Trimmed(s) == String(v)
  {
    hide Trimmed, ParseCore, Core, IndexOf;
    var t := Trimmed(s);
    var k := IndexOf(t, '-');
    if k == |t| {
      ParseCoreExact(t, "", v);
    } else {
      ParseCoreExact(t[..k], t[k + 1..], v);
      assert t == t[..k] + "-" + t[k + 1..];
    }
  }

  lemma {:induction false} RoundTrip(v: Version)
    requires WellFormed(v)
    ensures Parse(String(v)) == Some(v)
  {
    StringShape(v);
    ParseExact(String(v), v);
  }

  lemma {:induction false} StringInjective(v: Version, o: Version)
    requires WellFormed(v) && WellFormed(o) && String(v) == String(o)
    ensures v == o
  {
    RoundTrip(v);
    RoundTrip(o);
  }

  // -------------------------------------------------------------- precedence

  /** The order of two different identifiers. */
  function IdentifierOrder(x: string, y: string): int
  {
    match (ParseUint(x), ParseUint(y))
    case (Some(m), Some(n)) => if m < n then -1 else 1
    case (Some(_), None) => -1
    case (None, Some(_)) => 1
    case (None, None) => if Less(x, y) then -1 else if x == y then 0 else 1
  }

  /** The order of two different identifier lists. */
  function ListOrder(a: seq<string>, b: seq<string>): int
  {
    if a == [] || b == [] then (if |a| < |b| then -1 else 1)
    else if a[0] == b[0] then ListOrder(a[1..], b[1..])
    else IdentifierOrder(a[0], b[0])
  }

  function Order(v: Version, o: Version): int
  {
    if v.major != o.major then (if v.major < o.major then -1 else 1)
    else if v.minor != o.minor then (if v.minor < o.minor then -1 else 1)
    else if v.patch != o.patch then (if v.patch < o.patch then -1 else 1)
    else if v.pre == o.pre then 0
    else if v.pre == "" then 1
    else if o.pre == "" then -1
    else ListOrder(Split(v.pre, '.'), Split(o.pre, '.'))
  }

  method Compare(v: Version, o: Version) returns (r: int)
    ensures r == Order(v, o)
  {
    if v.major != o.major { return if v.major < o.major then -1 else 1; }
    if v.minor != o.minor { return if v.minor < o.minor then -1 else 1; }
    if v.patch != o.patch { return if v.patch < o.patch then -1 else 1; }
    if v.pre == o.pre { return 0; }
    if v.pre == "" { return 1; }
    if o.pre == "" { return -1; }
    var a, b := Split(v.pre, '.'), Split(o.pre, '.');
    var i := 0;
    while i < |a| && i < |b|
      invariant i <= |a| && i <= |b|
      invariant ListOrder(a, b) == ListOrder(a[i..], b[i..])
    {
      if a[i] != b[i] {
        var an, bn := ParseUint(a[i]), ParseUint(b[i]);
        if an.Some? && bn.Some? { return if an.value < bn.value then -1 else 1; }
        if an.Some? { return -1; }
        if bn.Some? { return 1; }
        return if Less(a[i], b[i]) then -1 else 1;
      }
      i := i + 1;
    }
    return if |a| < |b| then -1 else 1;
  }

  predicate ValidList(a: seq<string>) { forall i :: 0 <= i < |a| ==> ValidIdentifier(a[i]) }

  lemma {:induction false} SameNumberSameText(x: string, y: string)
    requires ValidIdentifier(x) && ValidIdentifier(y)
    requires ParseUint(x).Some? && ParseUint(x) == ParseUint(y)
    ensures x == y
  {
    CanonicalUnique(x, y);
  }

  lemma {:induction false} IdentifierOrderStrict(x: string, y: string)
    requires ValidIdentifier(x) && ValidIdentifier(y) && x != y
    ensures IdentifierOrder(x, y) in {-1, 1}
    ensures IdentifierOrder(y, x) == -IdentifierOrder(x, y)
  {
    if ParseUint(x).Some? && ParseUint(x) == ParseUint(y) { SameNumberSameText(x, y); }
    LessTotal(x, y);
    if Less(x, y) { LessAsymmetric(x, y); }
  }

  lemma {:induction false} IdentifierOrderTransitive(x: string, y: string, z: string)
    requires ValidIdentifier(x) && ValidIdentifier(y) && ValidIdentifier(z)
    requires x != y && y != z
    requires IdentifierOrder(x, y) == -1 && IdentifierOrder(y, z) == -1
    ensures x != z && IdentifierOrder(x, z) == -1
  {
    IdentifierOrderStrict(x, y);
    IdentifierOrderStrict(y, z);
    if ParseUint(x).None? && ParseUint(y).None? && ParseUint(z).None? { LessTransitive(x, y, z); }
  }

  lemma {:induction false} ListOrderStrict(a: seq<string>, b: seq<string>)
    requires ValidList(a) && ValidList(b) && a != b
    ensures ListOrder(a, b) in {-1, 1}
    ensures ListOrder(b, a) == -ListOrder(a, b)
  {
    if a != [] && b != [] {
      if a[0] == b[0] {
        assert a == [a[0]] + a[1..] && b == [b[0]] + b[1..];
        ListOrderStrict(a[1..], b[1..]);
      } else {
        IdentifierOrderStrict(a[0], b[0]);
      }
    }
  }

  lemma {:induction false} ListOrderTransitive(a: seq<string>, b: seq<string>, c: seq<string>)
    requires ValidList(a) && ValidList(b) && ValidList(c) && a != b && b != c
    requires ListOrder(a, b) == -1 && ListOrder(b, c) == -1
    ensures a != c && ListOrder(a, c) == -1
  {
    if a != [] && b != [] && c != [] {
      if a[0] == b[0] && b[0] == c[0] {
        assert a == [a[0]] + a[1..] && b == [b[0]] + b[1..] && c == [c[0]] + c[1..];
        ListOrderTransitive(a[1..], b[1..], c[1..]);
      } else if a[0] != b[0] && b[0] != c[0] {
        IdentifierOrderTransitive(a[0], b[0], c[0]);
      }
    }
  }

  lemma {:induction false} ValidSplit(v: Version)
    requires WellFormed(v) && v.pre != ""
    ensures ValidList(Split(v.pre, '.')) && Join(Split(v.pre, '.'), '.') == v.pre
  {
    JoinSplit(v.pre, '.');
  }

  /** Compare is a strict total order on parsed versions; 0 means equal. */
  lemma {:induction false} OrderIsTotal(v: Version, o: Version)
    requires WellFormed(v) && WellFormed(o)
    ensures Order(v, o) in {-1, 0, 1}
    ensures Order(v, o) == 0 <==> v == o
    ensures Order(o, v) == -Order(v, o)
  {
    if v.pre != o.pre && v.pre != "" && o.pre != "" {
      ValidSplit(v);
      ValidSplit(o);
      ListOrderStrict(Split(v.pre, '.'), Split(o.pre, '.'));
    }
  }

  lemma {:induction false} OrderIsTransitive(a: Version, b: Version, c: Version)
    requires WellFormed(a) && WellFormed(b) && WellFormed(c)
    requires Order(a, b) < 0 && Order(b, c) < 0
    ensures Order(a, c) < 0
  {
    OrderIsTotal(a, b); OrderIsTotal(b, c); OrderIsTotal(a, c);
    if a.pre != "" && b.pre != "" && c.pre != "" {
      ValidSplit(a); ValidSplit(b); ValidSplit(c);
      var x, y, z := Split(a.pre, '.'), Split(b.pre, '.'), Split(c.pre, '.');
      if x != y && y != z && ListOrder(x, y) == -1 && ListOrder(y, z) == -1 { ListOrderTransitive(x, y, z); }
    }
  }

  // ------------------- precedence of Semantic Versioning 2.0.0, section 11

  /** Section 11.4: numeric identifiers by number, below all others; the others
      in ASCII order. */
  ghost predicate IdentifierPrecedes(x: string, y: string)
  {
    if AllDigits(x) && AllDigits(y) then Value(x) < Value(y)
    else if AllDigits(x) then true
    else if AllDigits(y) then false
    else Less(x, y)
  }

  /** Section 11.4: the first difference decides; a proper prefix is lower. */
  ghost predicate ListPrecedesAt(a: seq<string>, b: seq<string>, k: nat)
  {
    && k <= |a| && k < |b| && a[..k] == b[..k]
    && (k == |a| || (a[k] != b[k] && IdentifierPrecedes(a[k], b[k])))
  }

  ghost predicate ListPrecedes(a: seq<string>, b: seq<string>)
  {
    exists k: nat :: ListPrecedesAt(a, b, k)
  }

  ghost predicate Precedes(v: Version, o: Version)
  {
    || v.major < o.major
    || (v.major == o.major && v.minor < o.minor)
    || (v.major == o.major && v.minor == o.minor && v.patch < o.patch)
    || (v.major == o.major && v.minor == o.minor && v.patch == o.patch &&
        v.pre != "" && (o.pre == "" || ListPrecedes(Split(v.pre, '.'), Split(o.pre, '.'))))
  }

  /** No numeric identifier outside the machine range. */
  ghost predicate Machine(ids: seq<string>)
  {
    forall i :: 0 <= i < |ids| && AllDigits(ids[i]) ==> Value(ids[i]) < U64
  }

  ghost predicate MachineNumbers(v: Version) { v.pre == "" || Machine(Split(v.pre, '.')) }

  lemma {:induction false} ListAgrees(a: seq<string>, b: seq<string>)
    requires ValidList(a) && ValidList(b) && Machine(a) && Machine(b) && a != b
    ensures ListOrder(a, b) < 0 <==> ListPrecedes(a, b)
  {
    if a == [] || b == [] {
      if |a| < |b| { assert ListPrecedesAt(a, b, 0); }
    } else if a[0] != b[0] {
      assert forall k: nat :: ListPrecedesAt(a, b, k) ==> k == 0 by {
        forall k: nat | ListPrecedesAt(a, b, k) ensures k == 0 {
        }
      }
      assert ListPrecedes(a, b) <==> ListPrecedesAt(a, b, 0);
    } else {
      assert a == [a[0]] + a[1..] && b == [b[0]] + b[1..];
      ListAgrees(a[1..], b[1..]);
      ListPrecedesTail(a, b);
    }
  }

  lemma {:induction false} ListPrecedesTail(a: seq<string>, b: seq<string>)
    requires a != [] && b != [] && a[0] == b[0]
    ensures ListPrecedes(a, b) <==> ListPrecedes(a[1..], b[1..])
  {
    if ListPrecedes(a, b) {
      var k: nat :| ListPrecedesAt(a, b, k);
      assert k > 0;
      assert a[1..][..k - 1] == a[..k][1..] && b[1..][..k - 1] == b[..k][1..];
      assert ListPrecedesAt(a[1..], b[1..], k - 1);
    }
    if ListPrecedes(a[1..], b[1..]) {
      var k: nat :| ListPrecedesAt(a[1..], b[1..], k);
      assert a[..k + 1] == [a[0]] + a[1..][..k] && b[..k + 1] == [b[0]] + b[1..][..k];
      assert ListPrecedesAt(a, b, k + 1);
    }
  }

  /** Compare agrees with section 11 as long as numbers fit the machine. */
  lemma {:induction false} CompareIsSemVer(v: Version, o: Version)
    requires WellFormed(v) && WellFormed(o) && MachineNumbers(v) && MachineNumbers(o)
    ensures Order(v, o) < 0 <==> Precedes(v, o)
  {
    if v.pre != o.pre && v.pre != "" && o.pre != "" {
      ValidSplit(v);
      ValidSplit(o);
      ListAgrees(Split(v.pre, '.'), Split(o.pre, '.'));
    } else if v.pre == o.pre && v.pre != "" {
      NotBelowItself(Split(v.pre, '.'));
    }
  }

  lemma {:induction false} NotBelowItself(a: seq<string>)
    ensures !ListPrecedes(a, a)
  {
  }

  /** The condition is exact: a version with a larger number is misplaced with
      respect to some ordinary version. */
  lemma {:induction false} SemVerExactly(v: Version)
    requires WellFormed(v)
    ensures MachineNumbers(v) <==>
            forall o :: WellFormed(o) && MachineNumbers(o) ==> (Order(v, o) < 0 <==> Precedes(v, o))
  {
    if MachineNumbers(v) {
      forall o | WellFormed(o) && MachineNumbers(o) ensures Order(v, o) < 0 <==> Precedes(v, o) {
        CompareIsSemVer(v, o);
      }
    } else {
      var o := Misplaced(v);
    }
  }

  /** The first identifier out of range. */
  lemma {:induction false} FirstHuge(a: seq<string>) returns (i: nat)
    requires !Machine(a)
    ensures i < |a| && AllDigits(a[i]) && Value(a[i]) >= U64 && Machine(a[..i])
  {
    var k :| 0 <= k < |a| && AllDigits(a[k]) && Value(a[k]) >= U64;
    i := 0;
    while i < k && !(AllDigits(a[i]) && Value(a[i]) >= U64)
      invariant 0 <= i <= k && Machine(a[..i])
    {
      assert a[..i + 1] == a[..i] + [a[i]];
      i := i + 1;
    }
  }

  lemma {:induction false} HyphenIdentifier()
    ensures ValidIdentifier("-") && !AllDigits("-") && '.' !in "-"
  {
    assert !IsDigit("-"[0]);
  }

  lemma {:induction false} Misplaced(v: Version) returns (o: Version)
    requires WellFormed(v) && !MachineNumbers(v)
    ensures WellFormed(o) && MachineNumbers(o)
    ensures Order(v, o) > 0 && Precedes(v, o)
  {
    var a := Split(v.pre, '.');
    var i := FirstHuge(a);
    var b := a[..i] + ["-"];
    HyphenIdentifier();
    assert ValidList(b) && Machine(b);
    SplitJoin(b, '.');
    o := v.(pre := Join(b, '.'));
    assert o.pre != "" by {
      assert b[i] == "-";
      assert Split("", '.') == [""];
    }
    assert a[..i] == b[..i] && b[i] == "-";
    assert IsDigit(a[i][0]);
    assert ListPrecedesAt(a, b, i);
    FirstDifference(a, b, i);
    assert IdentifierOrder(a[i], "-") == 1;
  }

  lemma {:induction false} FirstDifference(a: seq<string>, b: seq<string>, k: nat)
    requires k < |a| && k < |b| && a[..k] == b[..k] && a[k] != b[k]
    ensures ListOrder(a, b) == IdentifierOrder(a[k], b[k])
  {
    if k > 0 {
      assert a[0] == a[..k][0] == b[..k][0] == b[0];
      assert a[1..][..k - 1] == a[..k][1..] && b[1..][..k - 1] == b[..k][1..];
      FirstDifference(a[1..], b[1..], k - 1);
    }
  }

  // ------------------------------------------------------------ requirements

  /** Machine addition on uint64. */
  function Next(n: nat): nat { (n + 1) % U64 }

  function CaretUpper(b: Version): Version
  {
    if b.major != 0 then Version(Next(b.major), 0, 0, "")
    else if b.minor != 0 then Version(0, Next(b.minor), 0, "")
    else Version(0, 0, Next(b.patch), "")
  }

  function TildeUpper(b: Version): Version { Version(b.major, Next(b.minor), 0, "") }

  predicate InRange(v: Version, lo: Version, hi: Version)
  {
    Order(v, lo) >= 0 && Order(v, hi) < 0 && v.pre == ""
  }

  predicate Matches(r: string, v: Version)
  {
    var s := TrimSpace(r);
    if s == "" || s == "*" then v.pre == ""
    else if s[0] == '^' then
      var b := Parse(s[1..]);
      b.Some? && InRange(v, b.value, CaretUpper(b.value))
    else if s[0] == '~' then
      var b := Parse(s[1..]);
      b.Some? && InRange(v, b.value, TildeUpper(b.value))
    else
      var b := Parse(s);
      b.Some? && Order(v, b.value) == 0
  }

  predicate ValidRequirement(r: string)
  {
    r == "*" || r == "" || Parse(if r[0] == '^' || r[0] == '~' then r[1..] else r).Some?
  }

  /** What ^b promises: stable, at or above b, same leftmost nonzero component
      (and, for 0.0.z, the same patch). */
  ghost predicate CaretPromise(b: Version, v: Version)
  {
    && v.pre == "" && Order(v, b) >= 0 && v.major == b.major
    && (b.major == 0 ==> v.minor == b.minor && (b.minor == 0 ==> v.patch == b.patch))
  }

  /** What ~b promises: stable, at or above b, same major and minor. */
  ghost predicate TildePromise(b: Version, v: Version)
  {
    v.pre == "" && Order(v, b) >= 0 && v.major == b.major && v.minor == b.minor
  }

  /** The component the caret bound increments. */
  function CaretBumped(b: Version): nat
  {
    if b.major != 0 then b.major else if b.minor != 0 then b.minor else b.patch
  }

  /** ^b keeps its promise for all versions exactly when its bound does not wrap. */
  lemma {:induction false} CaretExactly(r: string, b: Version)
    requires TrimSpace(r) != "" && TrimSpace(r)[0] == '^' && Parse(TrimSpace(r)[1..]) == Some(b)
    ensures CaretBumped(b) + 1 < U64 <==>
            forall v :: WellFormed(v) ==> (Matches(r, v) <==> CaretPromise(b, v))
  {
    ParseExact(TrimSpace(r)[1..], b);
    forall v ensures Matches(r, v) <==> InRange(v, b, CaretUpper(b)) {}
    if CaretBumped(b) + 1 < U64 {
      forall v | WellFormed(v) ensures Matches(r, v) <==> CaretPromise(b, v) { CaretFits(b, v); }
    } else {
      var v := CaretWraps(b);
      assert !Matches(r, v);
    }
  }

  lemma {:induction false} CaretFits(b: Version, v: Version)
    requires WellFormed(b) && WellFormed(v) && CaretBumped(b) + 1 < U64
    ensures InRange(v, b, CaretUpper(b)) <==> CaretPromise(b, v)
  {
    if v.pre == "" {
      StableBelow(v, CaretUpper(b));
      StableAtLeast(v, b);
    }
  }

  lemma {:induction false} CaretWraps(b: Version) returns (v: Version)
    requires WellFormed(b) && CaretBumped(b) + 1 == U64
    ensures WellFormed(v) && CaretPromise(b, v) && !InRange(v, b, CaretUpper(b))
  {
    v := b.(pre := "");
    StableBelow(v, CaretUpper(b));
  }

  /** Among stable versions the order is that of the cores. */
  lemma {:induction false} StableBelow(v: Version, u: Version)
    requires v.pre == "" && u.pre == ""
    ensures Order(v, u) < 0 <==>
            || v.major < u.major
            || (v.major == u.major && v.minor < u.minor)
            || (v.major == u.major && v.minor == u.minor && v.patch < u.patch)
  {
  }

  lemma {:induction false} StableAtLeast(v: Version, b: Version)
    requires v.pre == ""
    ensures Order(v, b) >= 0 <==>
            || v.major > b.major
            || (v.major == b.major && v.minor > b.minor)
            || (v.major == b.major && v.minor == b.minor && v.patch >= b.patch)
  {
  }

  lemma {:induction false} TildeExactly(r: string, b: Version)
    requires TrimSpace(r) != "" && TrimSpace(r)[0] == '~' && Parse(TrimSpace(r)[1..]) == Some(b)
    ensures b.minor + 1 < U64 <==>
            forall v :: WellFormed(v) ==> (Matches(r, v) <==> TildePromise(b, v))
  {
    ParseExact(TrimSpace(r)[1..], b);
    forall v ensures Matches(r, v) <==> InRange(v, b, TildeUpper(b)) {}
    if b.minor + 1 < U64 {
      forall v | WellFormed(v) ensures Matches(r, v) <==> TildePromise(b, v) { TildeFits(b, v); }
    } else {
      var v := TildeWraps(b);
      assert !Matches(r, v);
    }
  }

  lemma {:induction false} TildeFits(b: Version, v: Version)
    requires WellFormed(b) && WellFormed(v) && b.minor + 1 < U64
    ensures InRange(v, b, TildeUpper(b)) <==> TildePromise(b, v)
  {
    if v.pre == "" {
      StableBelow(v, TildeUpper(b));
      StableAtLeast(v, b);
    }
  }

  lemma {:induction false} TildeWraps(b: Version) returns (v: Version)
    requires WellFormed(b) && b.minor + 1 == U64
    ensures WellFormed(v) && TildePromise(b, v) && !InRange(v, b, TildeUpper(b))
  {
    v := b.(pre := "");
    StableBelow(v, TildeUpper(b));
  }

  /** The text of the base version of a requirement. */
  function Base(s: string): string { if s != "" && s[0] in "^~" then s[1..] else s }

  /** The empty requirement and the star accept exactly the stable versions. */
  lemma {:induction false} AnyExactly(r: string, v: Version)
    requires TrimSpace(r) in {"", "*"}
    ensures Matches(r, v) <==> v.pre == ""
  {
  }

  /** Any other requirement whose base is not the spelling of a version accepts nothing. */
  lemma {:induction false} UnparsableAcceptsNothing(r: string, v: Version)
    requires TrimSpace(r) !in {"", "*"}
    requires forall b :: WellFormed(b) ==> Trimmed(Base(TrimSpace(r))) != String(b)
    ensures !Matches(r, v)
  {
    hide Trimmed, String, WellFormed, Order, CaretUpper, TildeUpper;
    forall b ensures Parse(Base(TrimSpace(r))) != Some(b) { ParseExact(Base(TrimSpace(r)), b); }
    assert Parse(Base(TrimSpace(r))) == None;
  }

  /** A requirement may be given if it is empty, a star, or a version with at most
      a caret or a tilde before it. */
  lemma {:induction false} ValidRequirementExactly(r: string)
    ensures ValidRequirement(r) <==> r in {"", "*"} || exists b :: WellFormed(b) && Trimmed(Base(r)) == String(b)
  {
    hide Trimmed, String, WellFormed;
    hide Parse;
    forall b ensures Parse(Base(r)) == Some(b) <==> WellFormed(b) && Trimmed(Base(r)) == String(b) { ParseExact(Base(r), b); }
  }

  /** A plain requirement pins one version. */
  lemma {:induction false} PinExactly(r: string, b: Version, v: Version)
    requires TrimSpace(r) != "" && TrimSpace(r)[0] !in "^~*" && Parse(TrimSpace(r)) == Some(b)
    requires WellFormed(v)
    ensures Matches(r, v) <==> v == b
  {
    ParseExact(TrimSpace(r), b);
    OrderIsTotal(v, b);
  }

  /** A printed version, as a requirement, is met by that version only. */
  lemma {:induction false} PrintedPins(b: Version, v: Version)
    requires WellFormed(b) && WellFormed(v)
    ensures Matches(String(b), v) <==> v == b
    ensures ValidRequirement(String(b))
  {
    hide Matches, Parse;
    var s := String(b);
    StringShape(b);
    CoreChars(b);
    assert s[0] == Core(b)[0];
    assert TrimPrefix(s, 'v') == s && TrimSpace(s) == s;
    RoundTrip(b);
    PinExactly(s, b, v);
  }
}
