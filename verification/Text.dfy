/** The pieces of Go's strings and strconv packages that versions are built from. */
module Text {
  datatype Option<+T> = None | Some(value: T)

  const U64: nat := 0x1_0000_0000_0000_0000

  predicate IsDigit(c: char) { '0' <= c <= '9' }

  predicate AllDigits(s: string) { forall i :: 0 <= i < |s| ==> IsDigit(s[i]) }

  /** unicode.IsSpace. */
  predicate IsSpace(c: char)
  {
    c in "\t\n\r \U{B}\U{C}\U{85}\U{A0}\U{1680}\U{2028}\U{2029}\U{202F}\U{205F}\U{3000}" || '\U{2000}' <= c <= '\U{200A}'
  }

  function TrimSpace(s: string): (r: string)
    ensures r == "" || (!IsSpace(r[0]) && !IsSpace(r[|r| - 1]))
    ensures s != "" && !IsSpace(s[0]) && !IsSpace(s[|s| - 1]) ==> r == s
    decreases |s|
  {
    if s == "" then s
    else if IsSpace(s[0]) then TrimSpace(s[1..])
    else if IsSpace(s[|s| - 1]) then TrimSpace(s[..|s| - 1])
    else s
  }

  /** r is s without the white space around it. */
  ghost predicate Strips(s: string, r: string, k: nat)
  {
    && k + |r| <= |s| && s[k..k + |r|] == r && (forall i :: 0 <= i < |s| && !(k <= i < k + |r|) ==> IsSpace(s[i]))
    && (r != "" ==> !IsSpace(r[0]) && !IsSpace(r[|r| - 1]))
  }

  /** Trimming takes exactly the white space off both ends. */
  lemma {:induction false} TrimSpaceExactly(s: string, r: string)
    ensures TrimSpace(s) == r <==> exists k: nat :: Strips(s, r, k)
  {
    hide IsSpace, TrimSpace, Strips;
    var k := TrimStrips(s);
    if j: nat :| Strips(s, r, j) { StripsOnce(s, r, j, TrimSpace(s), k); }
  }

  lemma {:induction false} TrimStrips(s: string) returns (k: nat)
    ensures Strips(s, TrimSpace(s), k)
    decreases |s|
  {
    hide IsSpace, Strips;
    k := 0;
    if s != "" && IsSpace(s[0]) {
      k := TrimStrips(s[1..]);
      StripsAfter(s, TrimSpace(s[1..]), k);
      k := k + 1;
    } else if s != "" && IsSpace(s[|s| - 1]) {
      k := TrimStrips(s[..|s| - 1]);
      StripsBefore(s, TrimSpace(s[..|s| - 1]), k);
    } else {
      StripsNothing(s);
    }
  }

  lemma {:induction false} StripsNothing(s: string)
    requires s != "" ==> !IsSpace(s[0]) && !IsSpace(s[|s| - 1])
    ensures Strips(s, s, 0)
  {
    hide IsSpace;
  }

  lemma {:induction false} StripsAfter(s: string, r: string, k: nat)
    requires s != "" && IsSpace(s[0]) && Strips(s[1..], r, k)
    ensures Strips(s, r, k + 1)
  {
    hide IsSpace;
    assert s[1..][k..k + |r|] == s[k + 1..k + 1 + |r|];
    forall i | 0 < i < |s| && !(k + 1 <= i < k + 1 + |r|) ensures IsSpace(s[i]) { assert s[i] == s[1..][i - 1]; }
  }

  lemma {:induction false} StripsBefore(s: string, r: string, k: nat)
    requires s != "" && IsSpace(s[|s| - 1]) && Strips(s[..|s| - 1], r, k)
    ensures Strips(s, r, k)
  {
    hide IsSpace;
    var n := |s| - 1;
    assert s[..n][k..k + |r|] == s[k..k + |r|];
    forall i | 0 <= i < n && !(k <= i < k + |r|) ensures IsSpace(s[i]) { assert s[i] == s[..n][i]; }
  }

  /** There is one way to strip a string. */
  lemma {:induction false} StripsOnce(s: string, r: string, j: nat, t: string, k: nat)
    requires Strips(s, r, j) && Strips(s, t, k)
    ensures r == t
  {
    EdgesInside(s, r, j, t, k);
    EdgesInside(s, t, k, r, j);
  }

  lemma {:induction false} EdgesInside(s: string, r: string, j: nat, t: string, k: nat)
    requires Strips(s, r, j) && Strips(s, t, k)
    ensures r != "" ==> k <= j && j + |r| <= k + |t|
  {
    if r != "" { assert s[j] == r[0] && s[j + |r| - 1] == r[|r| - 1]; }
  }

  ghost predicate Blank(s: string) { forall i :: 0 <= i < |s| ==> IsSpace(s[i]) }

  lemma {:induction false} BlankExactly(s: string)
    ensures TrimSpace(s) == "" <==> Blank(s)
  {
    TrimSpaceExactly(s, "");
    if Blank(s) { assert s[0..0] == "" && Strips(s, "", 0); }
  }

  function TrimPrefix(s: string, c: char): string { if s != "" && s[0] == c then s[1..] else s }

  /** strings.Split on a one-character separator. */
  function Split(s: string, c: char): (r: seq<string>)
    ensures r != []
    ensures forall i :: 0 <= i < |r| ==> c !in r[i]
  {
    if s == "" then [""]
    else if s[0] == c then [""] + Split(s[1..], c)
    else var r := Split(s[1..], c); [[s[0]] + r[0]] + r[1..]
  }

  function Join(parts: seq<string>, c: char): string
    requires parts != []
  {
    if |parts| == 1 then parts[0] else parts[0] + [c] + Join(parts[1..], c)
  }

  lemma {:induction false} JoinSplit(s: string, c: char)
    ensures Join(Split(s, c), c) == s
  {
    if s != "" {
      JoinSplit(s[1..], c);
      var r := Split(s[1..], c);
      if s[0] == c {
        assert Split(s, c)[1..] == r;
      } else {
        assert Split(s, c)[1..] == r[1..];
      }
    }
  }

  lemma {:induction false} SplitJoin(parts: seq<string>, c: char)
    requires parts != [] && forall i :: 0 <= i < |parts| ==> c !in parts[i]
    ensures Split(Join(parts, c), c) == parts
  {
    if |parts| == 1 {
      SplitPlain(parts[0], c);
    } else {
      SplitJoin(parts[1..], c);
      SplitFirst(parts[0], Join(parts[1..], c), c);
      assert parts[0] + [c] + Join(parts[1..], c) == parts[0] + ([c] + Join(parts[1..], c));
    }
  }

  lemma {:induction false} SplitPlain(s: string, c: char)
    requires c !in s
    ensures Split(s, c) == [s]
  {
    if s != "" {
      SplitPlain(s[1..], c);
      assert s == [s[0]] + s[1..];
    }
  }

  lemma {:induction false} SplitFirst(a: string, rest: string, c: char)
    requires c !in a
    ensures Split(a + ([c] + rest), c) == [a] + Split(rest, c)
  {
    var s := a + ([c] + rest);
    if a == "" {
      assert s[1..] == rest;
    } else {
      SplitFirst(a[1..], rest, c);
      assert s[1..] == a[1..] + ([c] + rest);
      assert a == [a[0]] + a[1..];
    }
  }

  function Digit(c: char): nat
    requires IsDigit(c)
  {
    c as int - '0' as int
  }

  /** The number a string of decimal digits denotes. */
  function Value(s: string): nat
    requires AllDigits(s)
  {
    if s == "" then 0 else 10 * Value(s[..|s| - 1]) + Digit(s[|s| - 1])
  }

  /** strconv.ParseUint(s, 10, 64): digits only, in range, anything else is an error. */
  function ParseUint(s: string): Option<nat>
  {
    if s != "" && AllDigits(s) && Value(s) < U64 then Some(Value(s)) else None
  }

  /** %d. */
  function Decimal(n: nat): (s: string)
    ensures s != ""
  {
    if n < 10 then ['0' + n as char] else Decimal(n / 10) + ['0' + (n % 10) as char]
  }

  /** No superfluous leading zero. */
  predicate Canonical(s: string) { s != "" && AllDigits(s) && (|s| > 1 ==> s[0] != '0') }

  lemma {:induction false} DecimalIsCanonical(n: nat)
    ensures Canonical(Decimal(n)) && Value(Decimal(n)) == n
    ensures n > 0 ==> Decimal(n)[0] != '0'
  {
    if n >= 10 {
      DecimalIsCanonical(n / 10);
      var s := Decimal(n);
      assert s[..|s| - 1] == Decimal(n / 10);
    }
  }

  lemma {:induction false} CanonicalIsDecimal(s: string)
    requires Canonical(s)
    ensures Decimal(Value(s)) == s
  {
    if |s| == 1 {
      assert s[..0] == "" && Value(s) == Digit(s[0]);
    } else {
      var t := s[..|s| - 1];
      CanonicalIsDecimal(t);
      assert Value(t) == 0 ==> t == "0";
      assert s == t + [s[|s| - 1]];
    }
  }

  lemma {:induction false} CanonicalUnique(s: string, t: string)
    requires Canonical(s) && Canonical(t) && Value(s) == Value(t)
    ensures s == t
  {
    CanonicalIsDecimal(s);
    CanonicalIsDecimal(t);
  }
}
