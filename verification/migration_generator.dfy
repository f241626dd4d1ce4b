/** The migration generator's check (grace/generators/migration_generator.py):
    a migration message is accepted when `message.strip()` is not empty. */
module MigrationGenerator {
  import opened Errors
  import opened Chars

  /** Index of the first non-whitespace character at or after i, or |s|. */
  function LeadEnd(s: string, i: nat): (a: nat)
    requires i <= |s|
    ensures i <= a <= |s|
    ensures forall k :: i <= k < a ==> IsSpace(s[k])
    ensures a == |s| || !IsSpace(s[a])
    decreases |s| - i
  {
    if i == |s| || !IsSpace(s[i]) then i else LeadEnd(s, i + 1)
  }

  /** Index just after the last non-whitespace character before j, or a if
      s[a..j] is all whitespace. */
  function TrailStart(s: string, a: nat, j: nat): (b: nat)
    requires a <= j <= |s|
    ensures a <= b <= j
    ensures forall k :: b <= k < j ==> IsSpace(s[k])
    ensures b == a || !IsSpace(s[b - 1])
    decreases j
  {
    if j == a || !IsSpace(s[j - 1]) then j else TrailStart(s, a, j - 1)
  }

  /** A string with no whitespace at either end. */
  predicate Trimmed(t: string) {
    |t| == 0 || (!IsSpace(t[0]) && !IsSpace(t[|t| - 1]))
  }

  /** Python's `str.strip()` without arguments: whitespace removed from both
      ends. What is left is a trimmed slice of s with only whitespace cut
      away around it. */
  function Strip(s: string): (t: string)
    ensures Trimmed(t)
    ensures exists a, b :: 0 <= a <= b <= |s| && t == s[a..b] && AllSpace(s[..a]) && AllSpace(s[b..])
  {
    var a := LeadEnd(s, 0);
    var b := TrailStart(s, a, |s|);
    assert AllSpace(s[..a]) && AllSpace(s[b..]);
    s[a..b]
  }

  /** The stripped string is determined by these facts: padding a trimmed
      string with whitespace on both sides and stripping gives it back. */
  lemma StripUnique(w1: string, t: string, w2: string)
    requires AllSpace(w1) && AllSpace(w2) && Trimmed(t)
    ensures Strip(w1 + t + w2) == t
  {
    var s := w1 + t + w2;
    var a := LeadEnd(s, 0);
    if |t| == 0 {
      assert AllSpace(s) by {
        forall k | 0 <= k < |s| ensures IsSpace(s[k]) {
          if k < |w1| { assert s[k] == w1[k]; } else { assert s[k] == w2[k - |w1|]; }
        }
      }
      assert a == |s|;
    } else {
      assert s[|w1|] == t[0];
      assert forall k :: 0 <= k < |w1| ==> s[k] == w1[k];
      assert a == |w1|;
      var e := |w1| + |t|;
      assert s[e - 1] == t[|t| - 1];
      assert forall k :: e <= k < |s| ==> s[k] == w2[k - e];
      assert TrailStart(s, a, |s|) == e by {
        TrailStartStops(s, a, e);
      }
      assert s[a..e] == t;
    }
  }

  /** Scanning back from the end stops at e when everything from e on is
      whitespace and s[e - 1] is not. */
  lemma {:induction false} TrailStartStops(s: string, a: nat, e: nat)
    requires a < e <= |s| && !IsSpace(s[e - 1])
    requires forall k :: e <= k < |s| ==> IsSpace(s[k])
    ensures TrailStart(s, a, |s|) == e
  {
    var j := |s|;
    while j > e
      invariant e <= j <= |s|
      invariant TrailStart(s, a, j) == TrailStart(s, a, |s|)
    {
      j := j - 1;
    }
  }

  /** Stripping twice is stripping once. */
  lemma StripIdempotent(s: string)
    ensures Strip(Strip(s)) == Strip(s)
  {
    StripUnique([], Strip(s), []);
    assert [] + Strip(s) + [] == Strip(s);
  }

  lemma AllSpaceConcat(x: string, y: string)
    requires AllSpace(x) && AllSpace(y)
    ensures AllSpace(x + y)
  {
    forall k | 0 <= k < |x + y| ensures IsSpace((x + y)[k]) {
      if k < |x| { assert (x + y)[k] == x[k]; } else { assert (x + y)[k] == y[k - |x|]; }
    }
  }

  /** A string is its stripped form with whitespace on either side. */
  lemma StripParts(m: string) returns (x: string, z: string)
    ensures AllSpace(x) && AllSpace(z)
    ensures m == x + Strip(m) + z
  {
    var a := LeadEnd(m, 0);
    var b := TrailStart(m, a, |m|);
    x, z := m[..a], m[b..];
    assert AllSpace(x) by {
      forall k | 0 <= k < |x| ensures IsSpace(x[k]) { assert x[k] == m[k]; }
    }
    assert AllSpace(z) by {
      forall k | 0 <= k < |z| ensures IsSpace(z[k]) { assert z[k] == m[b + k]; }
    }
    assert Strip(m) == m[a..b];
    assert m == x + m[a..b] + z;
  }

  /** Whitespace added at either end does not change the stripped string. */
  lemma StripIgnoresPadding(w1: string, m: string, w2: string)
    requires AllSpace(w1) && AllSpace(w2)
    ensures Strip(w1 + m + w2) == Strip(m)
  {
    var x, z := StripParts(m);
    Regroup(w1, x, Strip(m), z, w2);
    AllSpaceConcat(w1, x);
    AllSpaceConcat(z, w2);
    StripUnique(w1 + x, Strip(m), z + w2);
  }

  lemma Regroup(w1: string, x: string, t: string, z: string, w2: string)
    ensures w1 + (x + t + z) + w2 == (w1 + x) + t + (z + w2)
  {
  }

  /** `validate`: the message is accepted exactly when it has a character
      that is not whitespace; validation never raises. */
  function Validate(message: string): (r: Result<bool>)
    ensures r.Ok?
    ensures r.value <==> exists i :: 0 <= i < |message| && !IsSpace(message[i])
  {
    var t := Strip(message);
    if |t| == 0 then
      assert AllSpace(message) by {
        var a, b :| 0 <= a <= b <= |message| && t == message[a..b] && AllSpace(message[..a]) && AllSpace(message[b..]);
        assert a == b;
        forall k | 0 <= k < |message| ensures IsSpace(message[k]) {
          if k < a { assert message[k] == message[..a][k]; } else { assert message[k] == message[b..][k - b]; }
        }
      }
      Ok(false)
    else
      assert !IsSpace(t[0]);
      Ok(true)
  }

  /** The empty message and any message of whitespace alone are refused. */
  lemma RefusesBlank(message: string)
    requires AllSpace(message)
    ensures Validate(message) == Ok(false)
  {
  }
}
