/** Identities of cell placements and of the resources they own, and the strings
    that stand for them. A string is its sequence of bytes. */
module Scopes {
  import opened Text

  datatype Scope = Scope(applicationID: string, applicationInstanceID: string, cellID: string, cellInstanceID: string)
  {
    function Parts(): seq<string> { [applicationID, applicationInstanceID, cellID, cellInstanceID] }

    predicate IsLegacy() { applicationID == "legacy" && applicationInstanceID == "default" && cellInstanceID == "default" }

    predicate Valid() { forall i :: 0 <= i < 4 ==> TrimSpace(Parts()[i]) != "" && '\0' !in Parts()[i] }
  }

  datatype ResourceKey = ResourceKey(scope: Scope, resourceType: string, resourceID: string)
  {
    function Parts(): seq<string> { scope.Parts() + [resourceType, resourceID] }
  }

  const PREFIX := "pulp-scope/v1/"

  // ------------------------------------------------------------ the encoding

  /** A part behind its length. */
  function Frame(part: string): string { Decimal(|part|) + ":" + part }

  /** The framed parts, separated by bars. */
  function Encoded(parts: seq<string>): string
  {
    if parts == [] then ""
    else
      var n := |parts| - 1;
      Encoded(parts[..n]) + (if n > 0 then "|" else "") + Frame(parts[n])
  }

  /** The loop of both String and RoutingID over a strings.Builder. */
  method Encode(start: string, parts: seq<string>) returns (b: string)
    ensures b == start + Encoded(parts)
  {
    b := start;
    for i := 0 to |parts|
      invariant b == start + Encoded(parts[..i])
    {
      assert parts[..i + 1][..i] == parts[..i];
      if i > 0 { b := b + "|"; }
      b := b + (Decimal(|parts[i]|) + ":" + parts[i]);
    }
    assert parts[..|parts|] == parts;
  }

  function RoutingID(s: Scope): string { PREFIX + Encoded(s.Parts()) }

  function KeyText(k: ResourceKey): string { Encoded(k.Parts()) }

  method WriteRoutingID(s: Scope) returns (id: string)
    ensures id == RoutingID(s)
  {
    id := Encode(PREFIX, s.Parts());
  }

  method WriteResourceKey(k: ResourceKey) returns (text: string)
    ensures text == KeyText(k)
  {
    text := Encode("", k.Parts());
    assert "" + Encoded(k.Parts()) == Encoded(k.Parts());
  }

  // ------------------------------------------------------------ injectivity

  lemma {:induction false} DecimalHasNoColon(n: nat)
    ensures ':' !in Decimal(n)
  {
    DecimalIsCanonical(n);
  }

  /** The text before the first colon is determined. */
  lemma {:induction false} ColonCancel(a: string, x: string, b: string, y: string)
    requires ':' !in a && ':' !in b && a + ":" + x == b + ":" + y
    ensures a == b && x == y
  {
    var l, r := a + ":" + x, b + ":" + y;
    assert l[|a|] == ':' && r[|b|] == ':';
    forall i | 0 <= i < |a| ensures l[i] != ':' { assert l[i] == a[i]; }
    forall i | 0 <= i < |b| ensures r[i] != ':' { assert r[i] == b[i]; }
    assert l[..|a|] == a && r[..|b|] == b;
    assert l[|a| + 1..] == x && r[|b| + 1..] == y;
  }

  /** A frame tells where it ends, whatever follows and whatever it holds. */
  lemma {:induction false} FrameCancel(a: string, x: string, b: string, y: string)
    requires Frame(a) + x == Frame(b) + y
    ensures a == b && x == y
  {
    DecimalHasNoColon(|a|);
    DecimalHasNoColon(|b|);
    assert Frame(a) + x == Decimal(|a|) + ":" + (a + x);
    assert Frame(b) + y == Decimal(|b|) + ":" + (b + y);
    ColonCancel(Decimal(|a|), a + x, Decimal(|b|), b + y);
    DecimalIsCanonical(|a|);
    DecimalIsCanonical(|b|);
    assert (a + x)[..|a|] == a && (b + y)[..|b|] == b;
    assert (a + x)[|a|..] == x && (b + y)[|b|..] == y;
  }

  /** The encoding read from the front. */
  lemma {:induction false} EncodedFront(parts: seq<string>)
    requires parts != []
    ensures Encoded(parts) == Frame(parts[0]) + if |parts| == 1 then "" else "|" + Encoded(parts[1..])
  {
    hide Frame;
    var n := |parts| - 1;
    if n == 0 {
      assert Encoded(parts[..0]) == "";
      assert "" + "" + Frame(parts[0]) == Frame(parts[0]) + "";
    } else {
      EncodedFront(parts[..n]);
      assert parts[..n][1..] == parts[1..][..n - 1];
      var last := Frame(parts[n]);
      if n == 1 {
        assert Encoded(parts[1..]) == "" + "" + last by { assert parts[1..][..0] == []; }
      } else {
        var middle := Encoded(parts[1..][..n - 1]);
        assert Encoded(parts[1..]) == middle + "|" + last;
        assert Frame(parts[0]) + ("|" + middle) + "|" + last == Frame(parts[0]) + ("|" + (middle + "|" + last));
      }
    }
  }

  /** Different lists of parts have different encodings. */
  lemma {:induction false} EncodedInjective(a: seq<string>, b: seq<string>)
    requires Encoded(a) == Encoded(b)
    ensures a == b
  {
    hide Frame, Encoded;
    EmptyEncoding(a);
    EmptyEncoding(b);
    if a != [] && b != [] {
      EncodedFront(a);
      EncodedFront(b);
      var x, y := if |a| == 1 then "" else "|" + Encoded(a[1..]), if |b| == 1 then "" else "|" + Encoded(b[1..]);
      FrameCancel(a[0], x, b[0], y);
      if |a| > 1 && |b| > 1 {
        assert x[1..] == Encoded(a[1..]) && y[1..] == Encoded(b[1..]);
        EncodedInjective(a[1..], b[1..]);
        assert a == [a[0]] + a[1..] && b == [b[0]] + b[1..];
      }
    }
  }

  lemma {:induction false} EmptyEncoding(a: seq<string>)
    ensures Encoded(a) == "" <==> a == []
  {
  }

  /** Distinct scopes have distinct routing targets. */
  lemma {:induction false} RoutingIDInjective(s: Scope, t: Scope)
    ensures RoutingID(s) == RoutingID(t) <==> s == t
  {
    hide Encoded;
    if RoutingID(s) == RoutingID(t) {
      assert RoutingID(s)[|PREFIX|..] == Encoded(s.Parts()) && RoutingID(t)[|PREFIX|..] == Encoded(t.Parts());
      EncodedInjective(s.Parts(), t.Parts());
      assert s.Parts()[0] == t.Parts()[0] && s.Parts()[1] == t.Parts()[1] && s.Parts()[2] == t.Parts()[2] && s.Parts()[3] == t.Parts()[3];
    }
  }

  /** Distinct resource keys have distinct texts. */
  lemma {:induction false} ResourceKeyInjective(k: ResourceKey, l: ResourceKey)
    ensures KeyText(k) == KeyText(l) <==> k == l
  {
    hide Encoded;
    if KeyText(k) == KeyText(l) {
      EncodedInjective(k.Parts(), l.Parts());
      forall i | 0 <= i < 6 ensures k.Parts()[i] == l.Parts()[i] {}
      assert k.Parts()[0] == l.Parts()[0] && k.Parts()[1] == l.Parts()[1] && k.Parts()[2] == l.Parts()[2];
      assert k.Parts()[3] == l.Parts()[3] && k.Parts()[4] == l.Parts()[4] && k.Parts()[5] == l.Parts()[5];
    }
  }

  // ------------------------------------------------------------ routing targets

  /** A cell as extensions see it: older ones only have a name. */
  datatype Cell = Named(name: string) | Scoped(name: string, scope: Scope)

  function LegacyScope(cellID: string): Scope { Scope("legacy", "default", if TrimSpace(cellID) == "" then "default" else cellID, "default") }

  function ScopeOf(c: Cell): Scope { if c.Scoped? && c.scope.Valid() then c.scope else LegacyScope(c.name) }

  /** The cell is addressed by name rather than by scope. */
  predicate ByName(c: Cell) { c.Named? || ScopeOf(c).IsLegacy() }

  function CellIDOf(c: Cell): string { if ByName(c) then c.name else RoutingID(ScopeOf(c)) }

  /** No field is blank or holds a NUL. */
  ghost predicate Usable(s: Scope)
  {
    && !Blank(s.applicationID) && !Blank(s.applicationInstanceID) && !Blank(s.cellID) && !Blank(s.cellInstanceID)
    && '\0' !in s.applicationID && '\0' !in s.applicationInstanceID && '\0' !in s.cellID && '\0' !in s.cellInstanceID
  }

  /** A cell has a scope of its own if it has a usable one, unless it is that of
      the default instance of the application "legacy". */
  ghost predicate HasOwnScope(c: Cell)
  {
    c.Scoped? && Usable(c.scope) &&
    !(c.scope.applicationID == "legacy" && c.scope.applicationInstanceID == "default" && c.scope.cellInstanceID == "default")
  }

  lemma {:induction false} ByNameExactly(c: Cell)
    ensures ByName(c) <==> !HasOwnScope(c)
    ensures HasOwnScope(c) ==> ScopeOf(c) == c.scope
  {
    hide TrimSpace, Blank;
    if c.Scoped? {
      var s := c.scope;
      BlankExactly(s.applicationID);
      BlankExactly(s.applicationInstanceID);
      BlankExactly(s.cellID);
      BlankExactly(s.cellInstanceID);
      FourParts(s);
    }
  }

  lemma {:induction false} FourParts(s: Scope)
    ensures s.Valid() <==>
      && TrimSpace(s.applicationID) != "" && TrimSpace(s.applicationInstanceID) != ""
      && TrimSpace(s.cellID) != "" && TrimSpace(s.cellInstanceID) != ""
      && '\0' !in s.applicationID && '\0' !in s.applicationInstanceID && '\0' !in s.cellID && '\0' !in s.cellInstanceID
  {
    hide TrimSpace;
    var p := s.Parts();
    assert p[0] == s.applicationID && p[1] == s.applicationInstanceID && p[2] == s.cellID && p[3] == s.cellInstanceID;
  }

  /** Two cells share a routing target exactly when they are addressed alike, by
      the same scope or by the same name, or when the name of one spells out the
      scope of the other. */
  lemma {:induction false} SharedTargetExactly(c: Cell, d: Cell)
    ensures CellIDOf(c) == CellIDOf(d) <==>
      || (!HasOwnScope(c) && !HasOwnScope(d) && c.name == d.name)
      || (HasOwnScope(c) && HasOwnScope(d) && c.scope == d.scope)
      || (!HasOwnScope(c) && HasOwnScope(d) && c.name == RoutingID(d.scope))
      || (HasOwnScope(c) && !HasOwnScope(d) && d.name == RoutingID(c.scope))
  {
    hide RoutingID, Usable, ByName, ScopeOf;
    ByNameExactly(c);
    ByNameExactly(d);
    if HasOwnScope(c) && HasOwnScope(d) { RoutingIDInjective(c.scope, d.scope); }
  }

  /** The format, spelled out for a scope of four given parts. */
  lemma {:induction false} RoutingIDSpelled(s: Scope)
    ensures RoutingID(s) == "pulp-scope/v1/" + (Decimal(|s.applicationID|) + ":" + s.applicationID)
                            + "|" + (Decimal(|s.applicationInstanceID|) + ":" + s.applicationInstanceID)
                            + "|" + (Decimal(|s.cellID|) + ":" + s.cellID)
                            + "|" + (Decimal(|s.cellInstanceID|) + ":" + s.cellInstanceID)
  {
    var p := s.Parts();
    assert p[..4] == p && p[..0] == [];
    hide Encoded, Frame;
    FrontOf(p, 1);
    FrontOf(p, 2);
    FrontOf(p, 3);
    FrontOf(p, 4);
    FourFrames(p);
    Regroup(PREFIX, Frame(p[0]), "|", Frame(p[1]), Frame(p[2]), Frame(p[3]));
    FrameIs(p[0]);
    FrameIs(p[1]);
    FrameIs(p[2]);
    FrameIs(p[3]);
  }

  lemma {:induction false} FrameIs(part: string)
    ensures Frame(part) == Decimal(|part|) + ":" + part
  {
  }

  lemma {:induction false} FourFrames(p: seq<string>)
    requires |p| == 4 && forall n :: 0 < n <= 4 ==> Encoded(p[..n]) == Encoded(p[..n - 1]) + (if n > 1 then "|" else "") + Frame(p[n - 1])
    ensures Encoded(p[..4]) == Frame(p[0]) + "|" + Frame(p[1]) + "|" + Frame(p[2]) + "|" + Frame(p[3])
  {
    hide Frame;
    assert Encoded(p[..0]) == "";
    assert "" + "" + Frame(p[0]) == Frame(p[0]);
  }

  lemma {:induction false} Regroup(start: string, a: string, bar: string, b: string, c: string, d: string)
    ensures start + (a + bar + b + bar + c + bar + d) == start + a + bar + b + bar + c + bar + d
  {
  }

  lemma {:induction false} FrontOf(p: seq<string>, n: nat)
    requires 0 < n <= |p|
    ensures Encoded(p[..n]) == Encoded(p[..n - 1]) + (if n > 1 then "|" else "") + Frame(p[n - 1])
  {
    assert p[..n][..n - 1] == p[..n - 1];
  }
}
