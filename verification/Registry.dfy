/** What the registry stores: module identifiers, digests, manifests, and an
    abstract finite store serving them. */
module Registry {
  import opened Text
  import opened Versions

  newtype byte = x: int | 0 <= x < 256

  predicate IdEdge(c: char) { 'a' <= c <= 'z' || IsDigit(c) }

  predicate IdChar(c: char) { IdEdge(c) || c == '.' || c == '_' || c == '/' || c == '-' }

  /** ParseModuleID succeeds. It trims before it matches. */
  predicate ValidModuleID(id: string)
  {
    var s := TrimSpace(id);
    && 0 < |s| <= 255
    && IdEdge(s[0]) && IdEdge(s[|s| - 1])
    && (forall i :: 0 <= i < |s| ==> IdChar(s[i]))
    && (forall i :: 0 <= i < |s| - 1 ==> !(s[i] == s[i + 1] && (s[i] == '.' || s[i] == '/')))
  }

  ghost predicate Contains(s: string, part: string) { exists a: string, b: string :: s == a + part + b }

  predicate LowerOrDigit(c: char) { 'a' <= c <= 'z' || '0' <= c <= '9' }

  /** An identifier is made of lower-case letters, digits and, inside, of dots,
      underscores, slashes and hyphens, with no two dots or slashes together. */
  lemma {:induction false} ModuleIDExactly(id: string)
    ensures var s := TrimSpace(id);
            ValidModuleID(id) <==>
              && 1 <= |s| <= 255 && LowerOrDigit(s[0]) && LowerOrDigit(s[|s| - 1])
              && (forall c :: c in s ==> LowerOrDigit(c) || c in "._/-")
              && !Contains(s, "..") && !Contains(s, "//")
  {
    hide TrimSpace, Contains;
    var s := TrimSpace(id);
    Doubled(s, '.');
    Doubled(s, '/');
    IdChars(s);
    hide IdChar;
  }

  lemma {:induction false} IdChars(s: string)
    ensures (forall i :: 0 <= i < |s| ==> IdChar(s[i])) <==> forall c :: c in s ==> LowerOrDigit(c) || c in "._/-"
  {
    forall c ensures IdChar(c) <==> LowerOrDigit(c) || c in "._/-" {
      var more := "._/-";
      assert more[0] == '.' && more[1] == '_' && more[2] == '/' && more[3] == '-';
    }
    hide IdChar, LowerOrDigit;
  }

  lemma {:induction false} Doubled(s: string, c: char)
    ensures Contains(s, [c, c]) <==> exists i :: 0 <= i < |s| - 1 && s[i] == s[i + 1] == c
  {
    if a: string, b: string :| s == a + [c, c] + b {
      assert s[|a|] == c && s[|a| + 1] == c;
    }
    if i :| 0 <= i < |s| - 1 && s[i] == s[i + 1] && s[i + 1] == c {
      assert s == s[..i] + [c, c] + s[i + 2..];
    }
  }

  // ------------------------------------------------------------------ digests

  type Digest = d: seq<byte> | |d| == 32 witness seq(32, _ => 0)

  function HexDigit(n: nat): char
    requires n < 16
  {
    "0123456789abcdef"[n]
  }

  function HexValue(c: char): Option<nat>
  {
    if IsDigit(c) then Some(c as int - '0' as int)
    else if 'a' <= c <= 'f' then Some(c as int - 'a' as int + 10)
    else if 'A' <= c <= 'F' then Some(c as int - 'A' as int + 10)
    else None
  }

  function Hex(b: seq<byte>): string
  {
    if b == [] then "" else [HexDigit(b[0] as int / 16), HexDigit(b[0] as int % 16)] + Hex(b[1..])
  }

  /** hex.DecodeString: pairs of digits of either case. */
  function Unhex(s: string): Option<seq<byte>>
  {
    if s == "" then Some([])
    else if |s| == 1 then None
    else match (HexValue(s[0]), HexValue(s[1]), Unhex(s[2..]))
      case (Some(h), Some(l), Some(rest)) =>
        if 16 * h + l < 256 then Some([(16 * h + l) as byte] + rest) else None
      case _ => None
  }

  const DIGEST_PREFIX := "sha256:"

  function DigestText(d: Digest): string { DIGEST_PREFIX + Hex(d) }

  function ParseDigest(text: string): Option<Digest>
  {
    var s := TrimSpace(text);
    if |s| < 7 || s[..7] != DIGEST_PREFIX then None
    else match Unhex(s[7..])
      case Some(b) => if |b| == 32 then Some(b) else None
      case None => None
  }

  lemma {:induction false} HexDigits(n: nat)
    requires n < 16
    ensures HexValue(HexDigit(n)) == Some(n) && !IsSpace(HexDigit(n))
  {
  }

  lemma {:induction false} HexRoundTrip(b: seq<byte>)
    ensures Unhex(Hex(b)) == Some(b)
    ensures forall i :: 0 <= i < |Hex(b)| ==> !IsSpace(Hex(b)[i])
  {
    hide HexDigit, HexValue, IsSpace;
    if b != [] {
      HexRoundTrip(b[1..]);
      var s, n := Hex(b), b[0] as int;
      assert s[2..] == Hex(b[1..]);
      HexDigits(n / 16);
      HexDigits(n % 16);
      assert [b[0]] + b[1..] == b;
    }
  }

  lemma {:induction false} DigestRoundTrip(d: Digest)
    ensures ParseDigest(DigestText(d)) == Some(d)
  {
    HexRoundTrip(d);
    var s := DigestText(d);
    assert s[7..] == Hex(d) && s[0] == 's';
    assert Hex(d) != "";
    assert s[|s| - 1] == Hex(d)[|Hex(d)| - 1];
  }

  predicate LowerHex(c: char) { IsDigit(c) || 'a' <= c <= 'f' }

  /** A digest is printed as its name and 64 lower-case hexadecimal digits. */
  lemma {:induction false} DigestShape(d: Digest)
    ensures |DigestText(d)| == 71 && DigestText(d)[..7] == "sha256:"
    ensures forall i :: 7 <= i < 71 ==> LowerHex(DigestText(d)[i])
  {
    HexShape(d);
  }

  lemma {:induction false} HexShape(b: seq<byte>)
    ensures |Hex(b)| == 2 * |b| && forall i :: 0 <= i < |Hex(b)| ==> LowerHex(Hex(b)[i])
  {
    hide HexDigit;
    if b != [] {
      HexShape(b[1..]);
      LowerHexDigit(b[0] as int / 16);
      LowerHexDigit(b[0] as int % 16);
    }
  }

  lemma {:induction false} LowerHexDigit(n: nat)
    requires n < 16
    ensures LowerHex(HexDigit(n))
  {
  }

  // ------------------------------------------------------ manifests and store

  datatype Dependency = Dependency(id: string, requirement: string)

  datatype Artifact = Artifact(target: string, digest: Digest)

  /** `rest` stands for the fields resolution does not look at. */
  datatype Manifest = Manifest(id: string, version: Version, dependencies: seq<Dependency>,
                               artifacts: seq<Artifact>, rest: string)

  datatype ReleaseID = ReleaseID(id: string, version: Version)

  /** A store answers three questions; an absent key is an error answer. */
  datatype Store = Store(versions: map<string, seq<Version>>, manifests: map<ReleaseID, Manifest>,
                         blobs: map<Digest, seq<byte>>)

  /** The canonical encoding and the digest function, whatever they are. */
  datatype Hashing = Hashing(canonical: Manifest -> seq<byte>, sum: seq<byte> -> Digest)

  function ManifestDigest(h: Hashing, m: Manifest): string { DigestText(h.sum(h.canonical(m))) }

  /** A store that returns the manifest it was asked for and nothing unparsable,
      lists what it holds, and holds the blobs its manifests name. */
  ghost predicate Consistent(h: Hashing, s: Store)
  {
    && (forall id :: id in s.versions ==> ValidModuleID(id))
    && (forall r :: r in s.manifests ==>
          && r.id in s.versions && r.version in s.versions[r.id] && WellFormed(r.version)
          && s.manifests[r].id == r.id && s.manifests[r].version == r.version
          && (forall a :: a in s.manifests[r].artifacts ==>
                a.digest in s.blobs && h.sum(s.blobs[a.digest]) == a.digest))
  }
}
