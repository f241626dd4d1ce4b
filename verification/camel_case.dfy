/** The `camel_case_to_space` template filter (grace/generator.py): the
    substitution of `(?<=[a-z])([A-Z])` by ` \1`. Every ASCII capital whose
    left neighbour in the input is an ASCII lowercase letter gets one space
    in front of it; nothing else changes. */
module CamelCase {
  import opened Chars

  /** Position i of s is a camel-case boundary: a capital right after a
      lowercase letter, which is what the lookbehind pattern matches. */
  predicate BoundaryAt(s: string, i: int) {
    0 < i < |s| && IsLower(s[i - 1]) && IsUpper(s[i])
  }

  /** No lowercase letter of s is directly followed by a capital. */
  predicate NoBoundary(s: string) {
    forall i :: 0 < i < |s| ==> !BoundaryAt(s, i)
  }

  /** The scan of the substitution over s, where afterLower says whether the
      input character just before s is a lowercase letter. The lookbehind
      inspects the input, not the text already produced. */
  function Convert(afterLower: bool, s: string): string
    decreases |s|
  {
    if |s| == 0 then []
    else (if afterLower && IsUpper(s[0]) then [' ', s[0]] else [s[0]]) + Convert(IsLower(s[0]), s[1..])
  }

  /** Number of substitutions the scan of Convert(afterLower, s) makes. */
  function Count(afterLower: bool, s: string): nat
    decreases |s|
  {
    if |s| == 0 then 0
    else (if afterLower && IsUpper(s[0]) then 1 else 0) + Count(IsLower(s[0]), s[1..])
  }

  /** The filter. */
  function CamelCaseToSpace(s: string): (r: string)
    ensures |r| == |s| + Boundaries(s)
  {
    ConvertLength(false, s);
    Convert(false, s)
  }

  /** Number of camel-case boundaries of s. */
  function Boundaries(s: string): nat {
    Count(false, s)
  }

  /** The scan adds one character per substitution it makes. */
  lemma {:induction false} ConvertLength(f: bool, s: string)
    ensures |Convert(f, s)| == |s| + Count(f, s)
    decreases |s|
  {
    if |s| > 0 {
      ConvertLength(IsLower(s[0]), s[1..]);
    }
  }

  /** The scan ends with the last input character. */
  lemma {:induction false} ConvertLast(f: bool, s: string)
    requires |s| > 0
    ensures |Convert(f, s)| >= |s|
    ensures Convert(f, s)[|Convert(f, s)| - 1] == s[|s| - 1]
    decreases |s|
  {
    ConvertLength(f, s);
    if |s| > 1 {
      ConvertLast(IsLower(s[0]), s[1..]);
    }
  }

  /** The scan starts with the first input character, or with the inserted
      space when that character is substituted. */
  lemma ConvertFirst(f: bool, s: string)
    requires |s| > 0
    ensures |Convert(f, s)| > 0
    ensures Convert(f, s)[0] == (if f && IsUpper(s[0]) then ' ' else s[0])
  {
  }

  /** The flag the scan carries after reading a, having started with f. */
  function After(f: bool, a: string): bool {
    if |a| == 0 then f else IsLower(a[|a| - 1])
  }

  /** The scan splits over a concatenation. */
  lemma {:induction false} ConvertConcat(f: bool, a: string, b: string)
    ensures Convert(f, a + b) == Convert(f, a) + Convert(After(f, a), b)
    decreases |a|
  {
    if |a| == 0 {
      assert a + b == b;
    } else {
      var g := IsLower(a[0]);
      var piece := if f && IsUpper(a[0]) then [' ', a[0]] else [a[0]];
      var ab := a + b;
      assert ab[0] == a[0];
      assert ab[1..] == a[1..] + b;
      assert Convert(f, ab) == piece + Convert(g, a[1..] + b);
      assert Convert(f, a) == piece + Convert(g, a[1..]);
      ConvertConcat(g, a[1..], b);
      assert After(g, a[1..]) == After(f, a);
      assert Convert(f, ab) == piece + (Convert(g, a[1..]) + Convert(After(f, a), b));
    }
  }

  /** Starting after a lowercase letter adds a space only in front of a
      leading capital. */
  lemma ConvertAfterLower(b: string)
    ensures Convert(true, b) ==
      (if |b| > 0 && IsUpper(b[0]) then " " else "") + Convert(false, b)
  {
  }

  /** The last character of a is lowercase and the first of b is a capital. */
  predicate Junction(a: string, b: string) {
    |a| > 0 && |b| > 0 && IsLower(a[|a| - 1]) && IsUpper(b[0])
  }

  /** The filter works piecewise: converting a + b converts both halves and
      adds one space between them exactly when the junction is a boundary. */
  lemma Concatenation(a: string, b: string)
    ensures CamelCaseToSpace(a + b) ==
      CamelCaseToSpace(a) + (if Junction(a, b) then " " else "") + CamelCaseToSpace(b)
  {
    ConvertConcat(false, a, b);
    ConvertAfterLower(b);
  }

  /** Input character i sits at position i + Boundaries(s[..i+1]) of r. */
  predicate CopiedAt(s: string, r: string, i: int) {
    0 <= i < |s| && i + Boundaries(s[..i + 1]) < |r| && r[i + Boundaries(s[..i + 1])] == s[i]
  }

  /** If i is a boundary of s, the position before input character i in r
      holds the inserted space. */
  predicate SpacedAt(s: string, r: string, i: int) {
    0 <= i < |s| &&
    (BoundaryAt(s, i) ==>
      1 <= Boundaries(s[..i + 1]) && i + Boundaries(s[..i + 1]) <= |r| &&
      r[i + Boundaries(s[..i + 1]) - 1] == ' ')
  }

  lemma CharacterPosition(s: string, i: nat)
    requires i < |s|
    ensures CopiedAt(s, CamelCaseToSpace(s), i)
    ensures SpacedAt(s, CamelCaseToSpace(s), i)
  {
    var pre := s[..i + 1];
    assert s == pre + s[i + 1..];
    ConvertConcat(false, pre, s[i + 1..]);
    ConvertLast(false, pre);
    ConvertLength(false, pre);
    if BoundaryAt(s, i) {
      assert pre == s[..i] + [s[i]];
      ConvertConcat(false, s[..i], [s[i]]);
      ConvertLength(false, s[..i]);
      assert After(false, s[..i]);
    }
  }

  /** The copied characters keep their order and sit at the positions
      i + Boundaries(s[..i+1]); every other output position holds an inserted
      space, so deleting the inserted spaces gives the input back. */
  lemma CharacterPositions(s: string)
    ensures |CamelCaseToSpace(s)| == |s| + Boundaries(s)
    ensures forall i :: 0 <= i < |s| ==>
      CopiedAt(s, CamelCaseToSpace(s), i) && SpacedAt(s, CamelCaseToSpace(s), i)
  {
    ConvertLength(false, s);
    forall i | 0 <= i < |s|
      ensures CopiedAt(s, CamelCaseToSpace(s), i) && SpacedAt(s, CamelCaseToSpace(s), i)
    {
      CharacterPosition(s, i);
    }
  }

  lemma NoBoundaryConcat(x: string, y: string)
    requires NoBoundary(x) && NoBoundary(y)
    requires !Junction(x, y)
    ensures NoBoundary(x + y)
  {
    var xy := x + y;
    forall i | 0 < i < |xy|
      ensures !BoundaryAt(xy, i)
    {
      if i < |x| {
        assert !BoundaryAt(x, i);
      } else if i > |x| {
        assert !BoundaryAt(y, i - |x|);
      }
    }
  }

  /** The scan never leaves a lowercase letter directly before a capital. */
  lemma {:induction false} NoBoundaryInConvert(f: bool, s: string)
    ensures NoBoundary(Convert(f, s))
    decreases |s|
  {
    if |s| > 0 {
      var piece := if f && IsUpper(s[0]) then [' ', s[0]] else [s[0]];
      var rest := Convert(IsLower(s[0]), s[1..]);
      NoBoundaryInConvert(IsLower(s[0]), s[1..]);
      if |s| > 1 {
        ConvertFirst(IsLower(s[0]), s[1..]);
      }
      assert NoBoundary(piece);
      NoBoundaryConcat(piece, rest);
    }
  }

  /** The output has no lowercase letter directly followed by a capital. */
  lemma NoBoundaryInOutput(s: string)
    ensures NoBoundary(CamelCaseToSpace(s))
  {
    NoBoundaryInConvert(false, s);
  }

  /** The scan copies s when it has nothing to substitute. */
  lemma {:induction false} ConvertUnchanged(f: bool, s: string)
    requires NoBoundary(s)
    requires !(f && |s| > 0 && IsUpper(s[0]))
    ensures Convert(f, s) == s
    decreases |s|
  {
    if |s| > 0 {
      var t := s[1..];
      forall i | 0 < i < |t|
        ensures !BoundaryAt(t, i)
      {
        assert !BoundaryAt(s, i + 1);
      }
      if |t| > 0 {
        assert !BoundaryAt(s, 1);
      }
      ConvertUnchanged(IsLower(s[0]), t);
    }
  }

  /** A string without boundaries is returned unchanged. */
  lemma UnchangedWithoutBoundary(s: string)
    requires NoBoundary(s)
    ensures CamelCaseToSpace(s) == s
  {
    ConvertUnchanged(false, s);
  }

  lemma {:induction false} NothingCountedMeansNoBoundary(f: bool, s: string)
    requires Count(f, s) == 0
    ensures NoBoundary(s)
    ensures !(f && |s| > 0 && IsUpper(s[0]))
    decreases |s|
  {
    if |s| > 0 {
      var t := s[1..];
      NothingCountedMeansNoBoundary(IsLower(s[0]), t);
      forall i | 0 < i < |s|
        ensures !BoundaryAt(s, i)
      {
        if i > 1 {
          assert !BoundaryAt(t, i - 1);
        }
      }
    }
  }

  /** The filter leaves s as it is exactly when s has no boundary. */
  lemma FixedPointIff(s: string)
    ensures CamelCaseToSpace(s) == s <==> NoBoundary(s)
  {
    if NoBoundary(s) {
      UnchangedWithoutBoundary(s);
    }
    if CamelCaseToSpace(s) == s {
      ConvertLength(false, s);
      NothingCountedMeansNoBoundary(false, s);
    }
  }

  /** Applying the filter twice is the same as applying it once. */
  lemma Idempotent(s: string)
    ensures CamelCaseToSpace(CamelCaseToSpace(s)) == CamelCaseToSpace(s)
  {
    NoBoundaryInOutput(s);
    UnchangedWithoutBoundary(CamelCaseToSpace(s));
  }

  /** A two-word name is split in two. */
  lemma ExampleTwoWords()
    ensures CamelCaseToSpace("HelloWorld") == "Hello World"
  {
    var a, b := "Hello", "World";
    assert NoBoundary(a) by {
      forall i | 0 < i < |a| ensures !BoundaryAt(a, i) { assert !IsUpper(a[i]); }
    }
    assert NoBoundary(b) by {
      forall i | 0 < i < |b| ensures !BoundaryAt(b, i) { assert !IsUpper(b[i]); }
    }
    UnchangedWithoutBoundary(a);
    UnchangedWithoutBoundary(b);
    Concatenation(a, b);
    assert a + b == "HelloWorld";
    assert a + " " + b == "Hello World";
  }

  /** An acronym and the empty string are left as they are. */
  lemma ExampleUnchanged()
    ensures CamelCaseToSpace("HTTP") == "HTTP"
    ensures CamelCaseToSpace("") == ""
  {
    UnchangedWithoutBoundary("HTTP");
  }

  /** A run of capitals gets a space only in front of its first letter. */
  lemma ExampleAcronymInside()
    ensures CamelCaseToSpace("getURL") == "get URL"
  {
    var a, b := "get", "URL";
    UnchangedWithoutBoundary(a);
    UnchangedWithoutBoundary(b);
    Concatenation(a, b);
    assert a + b == "getURL";
    assert a + " " + b == "get URL";
  }
}
