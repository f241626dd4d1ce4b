/** The name check shared by the model and cog generators:
    `re.match(r'^[A-Z][a-zA-Z0-9]*$', name)`. `match` anchors at the start;
    without MULTILINE, `$` matches at the end of the string or just before a
    newline that ends it. */
module PascalName {
  import opened Chars

  /** The declarative rule: after dropping one trailing newline, if any, the
      name is an ASCII capital followed by ASCII letters and digits. */
  predicate IsPascalName(s: string) {
    |Body(s)| > 0 && IsUpper(Body(s)[0]) && forall k :: 1 <= k < |Body(s)| ==> IsAlnum(Body(s)[k])
  }

  /** s without its trailing newline, if it has one. */
  function Body(s: string): (b: string)
    ensures |b| == (if |s| > 0 && s[|s| - 1] == '\n' then |s| - 1 else |s|)
    ensures forall k :: 0 <= k < |b| ==> b[k] == s[k]
  {
    if |s| > 0 && s[|s| - 1] == '\n' then s[..|s| - 1] else s
  }

  /** End of the greedy run of `[a-zA-Z0-9]*` that starts at index i. */
  function RunEnd(s: string, i: nat): (e: nat)
    requires i <= |s|
    ensures i <= e <= |s|
    ensures forall k :: i <= k < e ==> IsAlnum(s[k])
    ensures e == |s| || !IsAlnum(s[e])
    decreases |s| - i
  {
    if i == |s| || !IsAlnum(s[i]) then i else RunEnd(s, i + 1)
  }

  /** Python's `$` at index e of s. */
  predicate DollarAt(s: string, e: nat) {
    e == |s| || (e == |s| - 1 && s[e] == '\n')
  }

  /** The greedy run from 1 followed by `$` decides the declarative rule. */
  lemma GreedyRunDecides(s: string)
    requires |s| > 0 && IsUpper(s[0])
    ensures DollarAt(s, RunEnd(s, 1)) <==> IsPascalName(s)
  {
    var e := RunEnd(s, 1);
    var body := Body(s);
    if IsPascalName(s) && e < |body| {
      assert IsAlnum(body[e]);
    }
  }

  /** The regular-expression match: one capital, the greedy run, then `$`.
      Backtracking into the run cannot help, since `$` fails in front of a
      letter or digit, so the greedy attempt decides. */
  function Matches(s: string): (r: bool)
    ensures r <==> IsPascalName(s)
  {
    if |s| == 0 || !IsUpper(s[0]) then false
    else
      GreedyRunDecides(s);
      DollarAt(s, RunEnd(s, 1))
  }

  /** A capital followed by letters and digits is accepted: a name with no
      trailing newline is its own body. */
  lemma Accepts(s: string)
    requires |s| > 0 && IsUpper(s[0])
    requires forall k :: 1 <= k < |s| ==> IsAlnum(s[k])
    ensures Matches(s)
  {
    assert s[|s| - 1] != '\n';
    assert Body(s) == s;
  }

  /** Names the rule refuses: the empty name, one that starts with a
      lowercase letter or a digit, and one containing a hyphen, an
      underscore or a space. */
  lemma Refusals(s: string, i: nat)
    ensures !Matches("")
    ensures |s| > 0 && (IsLower(s[0]) || IsDigit(s[0])) ==> !Matches(s)
    ensures i < |s| && s[i] in {'-', '_', ' '} ==> !Matches(s)
  {
  }

  /** One trailing newline is accepted (Python's `$`), two are not. */
  lemma TrailingNewline(s: string)
    ensures Matches(s) && s[|s| - 1] != '\n' ==> Matches(s + "\n")
    ensures !Matches(s + "\n\n")
  {
    var t := s + "\n\n";
    assert t[|t| - 1] == '\n' && t[..|t| - 1][|t| - 2] == '\n';
    if Matches(s) && s[|s| - 1] != '\n' {
      var u := s + "\n";
      assert u[..|u| - 1] == s;
    }
  }
}
