/** White space and `trim` (usb.c). */
module Text {

  /** C's `isspace` in the "C" locale. */
  predicate IsSpace(c: char)
  {
    c == ' ' || c == '\t' || c == '\n' || c == '\U{B}' || c == '\U{C}' || c == '\r'
  }

  /** `s` without its leading white space. */
  function TrimStart(s: string): string
  {
    if s != [] && IsSpace(s[0]) then TrimStart(s[1..]) else s
  }

  /** `s` without its trailing white space. */
  function TrimEnd(s: string): string
  {
    if s != [] && IsSpace(s[|s| - 1]) then TrimEnd(s[..|s| - 1]) else s
  }

  /** `TrimStart` leaves the longest suffix of `s` that does not start with white space. */
  lemma {:induction false} TrimStartShape(s: string)
    ensures var r := TrimStart(s);
      && |r| <= |s| && r == s[|s| - |r|..]
      && (forall k :: 0 <= k < |s| - |r| ==> IsSpace(s[k]))
      && (r != [] ==> !IsSpace(r[0]))
  {
    if s != [] && IsSpace(s[0]) {
      var t := s[1..];
      TrimStartShape(t);
      var r := TrimStart(t);
      assert t[|t| - |r|..] == s[|s| - |r|..];
      assert forall k :: 1 <= k < |s| - |r| ==> s[k] == t[k - 1];
    }
  }

  /** `TrimEnd` leaves the longest prefix of `s` that does not end with white space. */
  lemma {:induction false} TrimEndShape(s: string)
    ensures var r := TrimEnd(s);
      && |r| <= |s| && r == s[..|r|]
      && (forall k :: |r| <= k < |s| ==> IsSpace(s[k]))
      && (r != [] ==> !IsSpace(r[|r| - 1]))
  {
    if s != [] && IsSpace(s[|s| - 1]) {
      var t := s[..|s| - 1];
      TrimEndShape(t);
      var r := TrimEnd(t);
      assert t[..|r|] == s[..|r|];
      assert forall k :: |r| <= k < |s| - 1 ==> s[k] == t[k];
    }
  }

  lemma TrimStartNoSpace(s: string)
    requires s == [] || !IsSpace(s[0])
    ensures TrimStart(s) == s
  {
  }

  /** Number of white-space characters `trim` skips at the front of `s`. */
  function Lead(s: string): nat
  {
    TrimStartShape(s);
    |s| - |TrimStart(s)|
  }

  /** What `trim` leaves of `s`. */
  function Trimmed(s: string): string
  {
    TrimEnd(TrimStart(s))
  }

  /** The trimmed string is a contiguous slice of `s` with white space only outside it and at
      neither of its ends; it is empty exactly when `s` is all white space. */
  lemma TrimmedSlice(s: string)
    ensures var r := Trimmed(s);
      && Lead(s) + |r| <= |s| && r == s[Lead(s)..Lead(s) + |r|]
      && (forall k :: 0 <= k < Lead(s) ==> IsSpace(s[k]))
      && (forall k :: Lead(s) + |r| <= k < |s| ==> IsSpace(s[k]))
      && (r != [] ==> !IsSpace(r[0]) && !IsSpace(r[|r| - 1]))
      && (r == [] <==> forall k :: 0 <= k < |s| ==> IsSpace(s[k]))
  {
    var t := TrimStart(s);
    var r := TrimEnd(t);
    TrimStartShape(s);
    TrimEndShape(t);
    assert r != [] ==> r[0] == t[0];
  }

  lemma TrimIdempotent(s: string)
    ensures Trimmed(Trimmed(s)) == Trimmed(s)
  {
    var r := Trimmed(s);
    TrimmedSlice(s);
    if r != [] {
      assert TrimStart(r) == r;
      assert TrimEnd(r) == r;
    }
  }

  /** `trim` (usb.c): skip leading white space, then move the end back over trailing
      white space and cut the string there. */
  method Trim(s: string) returns (r: string)
    ensures r == Trimmed(s)
  {
    var start := 0;
    while start < |s| && IsSpace(s[start])
      invariant 0 <= start <= |s|
      invariant TrimStart(s[start..]) == TrimStart(s)
    {
      SkipLeading(s, start);
      start := start + 1;
    }
    if start == |s| {
      return [];
    }
    ghost var t := s[start..];
    TrimStartNoSpace(t);
    var end := |s| - 1;
    assert s[start..end + 1] == t;
    while end > start && IsSpace(s[end])
      invariant start <= end < |s|
      invariant TrimEnd(s[start..end + 1]) == TrimEnd(t)
    {
      SkipTrailing(s, start, end);
      end := end - 1;
    }
    r := s[start..end + 1];
    assert r[|r| - 1] == s[end];
    TrimEndNoSpace(r);
  }

  lemma SkipLeading(s: string, start: nat)
    requires start < |s| && IsSpace(s[start])
    ensures TrimStart(s[start..]) == TrimStart(s[start + 1..])
  {
    assert s[start..][1..] == s[start + 1..];
  }

  lemma SkipTrailing(s: string, start: nat, end: nat)
    requires start < end < |s| && IsSpace(s[end])
    ensures TrimEnd(s[start..end + 1]) == TrimEnd(s[start..end])
  {
    assert s[start..end + 1][..end - start] == s[start..end];
  }

  lemma TrimEndNoSpace(s: string)
    requires s == [] || !IsSpace(s[|s| - 1])
    ensures TrimEnd(s) == s
  {
  }

  /** The parts with `sep` between each two of them. */
  function Join(parts: seq<string>, sep: string): string
  {
    if parts == [] then ""
    else if |parts| == 1 then parts[0]
    else Join(parts[..|parts| - 1], sep) + sep + parts[|parts| - 1]
  }

  lemma {:induction false} JoinStartsWith(parts: seq<string>, sep: string)
    requires parts != []
    ensures parts[0] <= Join(parts, sep)
  {
    if |parts| > 1 {
      JoinStartsWith(parts[..|parts| - 1], sep);
    }
  }

  lemma JoinStep(parts: seq<string>, k: nat, sep: string)
    requires 1 <= k < |parts|
    ensures Join(parts[..k + 1], sep) == Join(parts[..k], sep) + sep + parts[k]
  {
    assert parts[..k + 1][..k] == parts[..k];
  }

  /** Joining two non-empty lists is joining each and putting one separator between. */
  lemma {:induction false} JoinConcat(a: seq<string>, b: seq<string>, sep: string)
    requires a != [] && b != []
    ensures Join(a + b, sep) == Join(a, sep) + sep + Join(b, sep)
    decreases |b|
  {
    var ab := a + b;
    assert ab[..|ab| - 1] == a + b[..|b| - 1];
    assert ab[|ab| - 1] == b[|b| - 1];
    if |b| > 1 {
      JoinConcat(a, b[..|b| - 1], sep);
    } else {
      assert ab[..|ab| - 1] == a;
    }
  }

  /** Each line preceded by a newline. */
  function NewlinePrefixed(lines: seq<string>): string
  {
    if lines == [] then ""
    else NewlinePrefixed(lines[..|lines| - 1]) + "\n" + lines[|lines| - 1]
  }

  lemma {:induction false} NewlinePrefixedConcat(a: seq<string>, b: seq<string>)
    ensures NewlinePrefixed(a + b) == NewlinePrefixed(a) + NewlinePrefixed(b)
    decreases |b|
  {
    if b == [] {
      assert a + b == a;
    } else {
      var init := b[..|b| - 1];
      assert (a + b)[..|a + b| - 1] == a + init;
      assert (a + b)[|a + b| - 1] == b[|b| - 1];
      NewlinePrefixedConcat(a, init);
    }
  }

  lemma NewlinePrefixedStep(lines: seq<string>, j: nat)
    requires j < |lines|
    ensures NewlinePrefixed(lines[..j + 1]) == NewlinePrefixed(lines[..j]) + "\n" + lines[j]
  {
    assert lines[..j + 1][..j] == lines[..j];
  }

  /** The two ends of a loop over `lines`. */
  lemma NewlinePrefixedPrefix(lines: seq<string>, j: nat)
    requires j == 0 || j == |lines|
    ensures NewlinePrefixed(lines[..j]) == if j == 0 then "" else NewlinePrefixed(lines)
  {
    if j == 0 {
      assert lines[..0] == [];
    } else {
      assert lines[..j] == lines;
    }
  }

  lemma NewlinePrefixedCons(line: string, lines: seq<string>)
    ensures NewlinePrefixed([line] + lines) == "\n" + line + NewlinePrefixed(lines)
  {
    NewlinePrefixedConcat([line], lines);
    assert [line][..0] == [];
  }

  lemma AppendAssoc<T>(a: seq<T>, b: seq<T>, c: seq<T>)
    ensures (a + b) + c == a + (b + c)
  {
  }
}
