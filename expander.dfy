/**
 * `expand_variables`: for each binding, in table order, the leftmost occurrence of
 * `"$" + key` in the line as it stands at that moment is replaced by the value.
 * Later occurrences stay literal, the inserted value is not scanned again for the same
 * key, and matching is plain substring search (`$AB` contains `$A`).
 */
module Expander {
  import opened Wrappers
  import opened Store

  /** The text searched for a key (`"$%s"`). */
  function Placeholder(key: string): string {
    "$" + key
  }

  /** `pat` occurs in `s` starting at position `j`. */
  predicate OccursAt(s: string, pat: string, j: int) {
    0 <= j && j + |pat| <= |s| && s[j..j + |pat|] == pat
  }

  /** `strstr` started at position `i`. */
  function IndexFrom(s: string, pat: string, i: nat): (r: Option<nat>)
    ensures r.Some? ==> i <= r.value && OccursAt(s, pat, r.value)
    ensures r.Some? ==> forall j :: i <= j < r.value ==> !OccursAt(s, pat, j)
    ensures r.None? ==> forall j :: i <= j ==> !OccursAt(s, pat, j)
    decreases |s| - i
  {
    if i + |pat| > |s| then None
    else if s[i..i + |pat|] == pat then Some(i)
    else IndexFrom(s, pat, i + 1)
  }

  /** `strstr`: the leftmost occurrence of `pat` in `s`, if there is one. */
  function IndexOf(s: string, pat: string): (r: Option<nat>)
    ensures r.Some? ==> OccursAt(s, pat, r.value) && forall j :: 0 <= j < r.value ==> !OccursAt(s, pat, j)
    ensures r.None? <==> forall j :: !OccursAt(s, pat, j)
  {
    IndexFrom(s, pat, 0)
  }

  /** One step of the loop: splice `val` over the leftmost `pat`, or leave `s` as it is. */
  function ReplaceFirst(s: string, pat: string, val: string): string {
    match IndexOf(s, pat)
    case None => s
    case Some(i) => s[..i] + val + s[i + |pat|..]
  }

  /** The line after the loop has handled the bindings `vars`, first to last. */
  function Expand(s: string, vars: seq<EnvVar>): string
    decreases |vars|
  {
    if vars == [] then s
    else
      var b := vars[|vars| - 1];
      ReplaceFirst(Expand(s, vars[..|vars| - 1]), Placeholder(b.key), b.value)
  }

  /**
   * A step that finds its placeholder at `i` keeps the text before `i` (which holds no earlier
   * occurrence), puts the value in place of the placeholder and keeps the rest, so the line
   * grows by `|val| - |pat|`.
   */
  lemma ReplaceFirstSplices(s: string, pat: string, val: string, i: nat)
    requires IndexOf(s, pat) == Some(i)
    ensures forall j :: 0 <= j < i ==> !OccursAt(s, pat, j)
    ensures |ReplaceFirst(s, pat, val)| == |s| + |val| - |pat|
    ensures ReplaceFirst(s, pat, val)[..i] == s[..i]
    ensures ReplaceFirst(s, pat, val)[i..i + |val|] == val
    ensures ReplaceFirst(s, pat, val)[i + |val|..] == s[i + |pat|..]
  {
    var r := ReplaceFirst(s, pat, val);
    assert r == s[..i] + val + s[i + |pat|..];
  }

  /** Leftmost only: an occurrence after the replaced one is still there, shifted by the change in length. */
  lemma LaterOccurrenceStays(s: string, pat: string, val: string, i: nat, j: nat)
    requires IndexOf(s, pat) == Some(i)
    requires OccursAt(s, pat, j) && j >= i + |pat|
    ensures OccursAt(ReplaceFirst(s, pat, val), pat, j + |val| - |pat|)
  {
    var r := ReplaceFirst(s, pat, val);
    ReplaceFirstSplices(s, pat, val, i);
    var t := s[i + |pat|..];
    var j' := j + |val| - |pat|;
    assert r[i + |val|..] == t;
    assert r[j'..j' + |pat|] == t[j - i - |pat|..j - i] == s[j..j + |pat|];
  }

  /** A line in which no key's placeholder occurs comes back unchanged. */
  lemma {:induction false} ExpandNoMatch(s: string, vars: seq<EnvVar>)
    requires forall k :: 0 <= k < |vars| ==> IndexOf(s, Placeholder(vars[k].key)).None?
    ensures Expand(s, vars) == s
    decreases |vars|
  {
    if vars != [] {
      var init := vars[..|vars| - 1];
      assert forall k :: 0 <= k < |init| ==> init[k] == vars[k];
      ExpandNoMatch(s, init);
    }
  }

  /** The bindings are applied in table order: the first binding acts on the raw line, the rest on its result. */
  lemma {:induction false} ExpandFirstBindingFirst(s: string, b: EnvVar, rest: seq<EnvVar>)
    ensures Expand(s, [b] + rest) == Expand(ReplaceFirst(s, Placeholder(b.key), b.value), rest)
    decreases |rest|
  {
    var vars := [b] + rest;
    if rest == [] {
      assert vars[..0] == [];
    } else {
      var init := rest[..|rest| - 1];
      assert vars[..|vars| - 1] == [b] + init;
      assert vars[|vars| - 1] == rest[|rest| - 1];
      ExpandFirstBindingFirst(s, b, init);
    }
  }

  /** A placeholder starts with `$`, so its first occurrence is at the first `$` of the line if it occurs there. */
  lemma FirstDollarMatch(s: string, key: string, i: nat)
    requires forall j :: 0 <= j < i && j < |s| ==> s[j] != '$'
    requires OccursAt(s, Placeholder(key), i)
    ensures IndexOf(s, Placeholder(key)) == Some(i)
  {
    var pat := Placeholder(key);
    forall j | 0 <= j < i ensures !OccursAt(s, pat, j) {
      if j + |pat| <= |s| { assert s[j..j + |pat|][0] == s[j] != pat[0]; }
    }
  }

  /** A line with no `$` in it is never changed by expansion, whatever the table holds. */
  lemma {:induction false} ExpandNoDollar(s: string, vars: seq<EnvVar>)
    requires forall j :: 0 <= j < |s| ==> s[j] != '$'
    ensures Expand(s, vars) == s
  {
    forall k | 0 <= k < |vars| ensures IndexOf(s, Placeholder(vars[k].key)).None? {
      var pat := Placeholder(vars[k].key);
      forall j ensures !OccursAt(s, pat, j) {
        if 0 <= j && j + |pat| <= |s| { assert s[j..j + |pat|][0] == s[j] != pat[0]; }
      }
    }
    ExpandNoMatch(s, vars);
  }

  /** The table `[b1, b2]` applies `b1`, then `b2`. */
  lemma ExpandTwo(s: string, b1: EnvVar, b2: EnvVar)
    ensures Expand(s, [b1]) == ReplaceFirst(s, Placeholder(b1.key), b1.value)
    ensures Expand(s, [b1, b2]) == ReplaceFirst(ReplaceFirst(s, Placeholder(b1.key), b1.value), Placeholder(b2.key), b2.value)
  {
    assert [b1][..0] == [];
    assert [b1, b2][..1] == [b1];
  }

  /** Leftmost only: `$A $A` with `A=x` becomes `x $A`. */
  lemma LeftmostOnlyExample()
    ensures Expand("$A $A", [EnvVar("A", "x")]) == "x $A"
  {
    ExpandTwo("$A $A", EnvVar("A", "x"), EnvVar("A", "x"));
    FirstDollarMatch("$A $A", "A", 0);
    assert "$A $A"[2..] == " $A";
  }

  /** Expansion is not idempotent: expanding `x $A` again with `A=x` gives `x x`. */
  lemma NotIdempotentExample()
    ensures Expand("x $A", [EnvVar("A", "x")]) == "x x"
  {
    ExpandTwo("x $A", EnvVar("A", "x"), EnvVar("A", "x"));
    assert "x $A"[2..4] == "$A" && "x $A"[0] == 'x' && "x $A"[1] == ' ';
    FirstDollarMatch("x $A", "A", 2);
    assert "x $A"[..2] == "x ";
  }

  /** No rescan: a value that itself contains the placeholder is left as inserted. */
  lemma NoRescanExample()
    ensures Expand("$A", [EnvVar("A", "$A")]) == "$A"
  {
    ExpandTwo("$A", EnvVar("A", "$A"), EnvVar("A", "$A"));
    FirstDollarMatch("$A", "A", 0);
  }

  /** Order matters: a value that spells a later key is expanded by that key. */
  lemma LaterKeyExpandsValueExample()
    ensures Expand("$A", [EnvVar("A", "$B"), EnvVar("B", "y")]) == "y"
  {
    ExpandTwo("$A", EnvVar("A", "$B"), EnvVar("B", "y"));
    FirstDollarMatch("$A", "A", 0);
    FirstDollarMatch("$B", "B", 0);
  }

  /** Order matters: the same bindings in the other order leave the value unexpanded. */
  lemma EarlierKeyMissesValueExample()
    ensures Expand("$A", [EnvVar("B", "y"), EnvVar("A", "$B")]) == "$B"
  {
    ExpandTwo("$A", EnvVar("B", "y"), EnvVar("A", "$B"));
    assert IndexOf("$A", "$B").None? by {
      forall j ensures !OccursAt("$A", "$B", j) {
        if j == 0 { assert "$A"[0..2][1] != "$B"[1]; }
      }
    }
    FirstDollarMatch("$A", "A", 0);
  }

  /** Plain substring matching: with `A=1`, `$AB` becomes `1B`, so a key that is a prefix of another wins when it comes first. */
  lemma PrefixKeyExample()
    ensures Expand("$AB", [EnvVar("A", "1")]) == "1B"
    ensures Expand("$AB", [EnvVar("A", "1"), EnvVar("AB", "2")]) == "1B"
  {
    ExpandTwo("$AB", EnvVar("A", "1"), EnvVar("AB", "2"));
    FirstDollarMatch("$AB", "A", 0);
    assert "$AB"[2..] == "B";
    ExpandNoDollar("1B", [EnvVar("AB", "2")]);
    ExpandTwo("1B", EnvVar("AB", "2"), EnvVar("AB", "2"));
  }

  /** With the longer key first, `$AB` is taken whole. */
  lemma LongerKeyFirstExample()
    ensures Expand("$AB", [EnvVar("AB", "2"), EnvVar("A", "1")]) == "2"
  {
    ExpandTwo("$AB", EnvVar("AB", "2"), EnvVar("A", "1"));
    FirstDollarMatch("$AB", "AB", 0);
    ExpandNoDollar("2", [EnvVar("A", "1")]);
    ExpandTwo("2", EnvVar("A", "1"), EnvVar("A", "1"));
  }

  /** `expand_variables`: start from a copy of the line and apply each binding of the table in turn. */
  method ExpandVariables(env: Env, input: string) returns (expanded: string)
    requires env.Valid()
    ensures expanded == Expand(input, env.Bindings())
  {
    expanded := input;
    var i := 0;
    while i < env.count
      invariant 0 <= i <= env.count
      invariant expanded == Expand(input, env.vars[..i])
    {
      var b := env.vars[i];
      var placeholder := Placeholder(b.key);
      var pos := IndexOf(expanded, placeholder);
      if pos.Some? {
        expanded := expanded[..pos.value] + b.value + expanded[pos.value + |placeholder|..];
      }
      assert env.vars[..i + 1][..i] == env.vars[..i];
      i := i + 1;
    }
  }
}
