/**
 * The `strtok` splits of xsh: a line is cut at a one-character delimiter (`' '` for the
 * argument vector, `'|'` for pipeline stages) and empty fields are dropped, so runs of
 * delimiters, and delimiters at either end, produce no token.
 */
module Tokenizer {

  /** Length of the field at the front of `s`: everything up to the first delimiter. */
  function FieldEnd(s: string, d: char): (k: nat)
    ensures k <= |s|
    ensures k < |s| ==> s[k] == d
    ensures forall j :: 0 <= j < k ==> s[j] != d
    decreases |s|
  {
    if s == [] || s[0] == d then 0 else 1 + FieldEnd(s[1..], d)
  }

  /** The tokens `strtok` returns for `s`, in order. */
  function Tokens(s: string, d: char): seq<string>
    decreases |s|
  {
    if s == [] then []
    else if s[0] == d then Tokens(s[1..], d)
    else
      var k := FieldEnd(s, d);
      [s[..k]] + Tokens(s[k..], d)
  }

  /** `s` with every delimiter deleted. */
  function Strip(s: string, d: char): string {
    if s == [] then [] else (if s[0] == d then [] else [s[0]]) + Strip(s[1..], d)
  }

  /** Tokens glued back together. */
  function Concat(ts: seq<string>): string {
    if ts == [] then [] else ts[0] + Concat(ts[1..])
  }

  /** Tokens written out with one delimiter between neighbours. */
  function Join(ts: seq<string>, d: char): string {
    if ts == [] then []
    else if |ts| == 1 then ts[0]
    else ts[0] + [d] + Join(ts[1..], d)
  }

  /** Every token is non-empty and holds no delimiter. */
  lemma {:induction false} TokensWellFormed(s: string, d: char)
    ensures forall t :: t in Tokens(s, d) ==> t != [] && d !in t
    decreases |s|
  {
    if s != [] {
      if s[0] == d {
        TokensWellFormed(s[1..], d);
      } else {
        var k := FieldEnd(s, d);
        TokensWellFormed(s[k..], d);
        assert forall j :: 0 <= j < k ==> s[..k][j] != d;
      }
    }
  }

  /** A field with no delimiter in it is a single token. */
  lemma {:induction false} TokensOfField(t: string, d: char)
    requires t != [] && d !in t
    ensures Tokens(t, d) == [t]
  {
    assert forall j :: 0 <= j < |t| ==> t[j] in t;
    FieldEndExact(t, |t|, d);
    assert t[|t|..] == [] && t[..|t|] == t;
  }

  /** A delimiter separates cleanly: the tokens of `a + d + b` are those of `a` followed by those of `b`. */
  lemma {:induction false} TokensSplit(a: string, b: string, d: char)
    ensures Tokens(a + [d] + b, d) == Tokens(a, d) + Tokens(b, d)
    decreases |a|
  {
    var s := a + [d] + b;
    if a == [] {
      assert s[1..] == b;
    } else if a[0] == d {
      assert s[1..] == a[1..] + [d] + b;
      TokensSplit(a[1..], b, d);
    } else {
      var k := FieldEnd(a, d);
      assert s == a + ([d] + b);
      FieldEndPrefix(a, [d] + b, d);
      assert Tokens(s, d) == [s[..k]] + Tokens(s[k..], d);
      assert Tokens(a, d) == [a[..k]] + Tokens(a[k..], d);
      assert s[..k] == a[..k];
      if k < |a| {
        assert s[k..] == a[k..] + [d] + b;
        TokensSplit(a[k..], b, d);
      } else {
        assert s[k..] == [d] + b && a[k..] == [];
        assert Tokens([d] + b, d) == Tokens(b, d) by { assert ([d] + b)[1..] == b; }
      }
    }
  }

  /** The front field of `a + rest` is the front field of `a` when `a` holds a delimiter or `rest` starts with one. */
  lemma FieldEndPrefix(a: string, rest: string, d: char)
    requires rest != [] && rest[0] == d
    ensures FieldEnd(a + rest, d) == FieldEnd(a, d)
  {
    var s := a + rest;
    var k := FieldEnd(a, d);
    assert s[k] == d;
    assert forall j :: 0 <= j < k ==> s[j] == a[j];
  }

  /** Consecutive delimiters collapse: doubling a delimiter changes no token. */
  lemma TokensCollapse(a: string, b: string, d: char)
    ensures Tokens(a + [d, d] + b, d) == Tokens(a + [d] + b, d)
  {
    TokensSplit(a, [d] + b, d);
    assert a + [d, d] + b == a + [d] + ([d] + b);
    assert ([d] + b)[1..] == b;
    TokensSplit(a, b, d);
  }

  /** A line yields no token exactly when it consists of delimiters only (the empty line included). */
  lemma {:induction false} NoTokensIff(s: string, d: char)
    ensures Tokens(s, d) == [] <==> forall i :: 0 <= i < |s| ==> s[i] == d
    decreases |s|
  {
    if s != [] {
      NoTokensIff(s[1..], d);
      if s[0] == d {
        assert forall i :: 1 <= i < |s| ==> s[i] == s[1..][i - 1];
      }
    }
  }

  /** Splitting loses no character but the delimiters: the tokens glued together are the line with delimiters deleted. */
  lemma {:induction false} TokensKeepContent(s: string, d: char)
    ensures Concat(Tokens(s, d)) == Strip(s, d)
    decreases |s|
  {
    if s != [] {
      if s[0] == d {
        TokensKeepContent(s[1..], d);
      } else {
        var k := FieldEnd(s, d);
        TokensKeepContent(s[k..], d);
        StripField(s, k, d);
        var ts := Tokens(s, d);
        assert ts[0] == s[..k] && ts[1..] == Tokens(s[k..], d);
      }
    }
  }

  /** Deleting delimiters from a line whose first `k` characters hold none keeps those `k` characters in front. */
  lemma {:induction false} StripField(s: string, k: nat, d: char)
    requires k <= |s|
    requires forall j :: 0 <= j < k ==> s[j] != d
    ensures Strip(s, d) == s[..k] + Strip(s[k..], d)
    decreases k
  {
    if k > 0 {
      StripField(s[1..], k - 1, d);
      assert s[1..][..k - 1] == s[1..k];
      assert s[1..][k - 1..] == s[k..];
      assert s[..k] == [s[0]] + s[1..k];
    }
  }

  /** Round trip: joining non-empty, delimiter-free tokens with the delimiter and splitting again gives them back. */
  lemma {:induction false} TokensOfJoin(ts: seq<string>, d: char)
    requires forall i :: 0 <= i < |ts| ==> ts[i] != [] && d !in ts[i]
    ensures Tokens(Join(ts, d), d) == ts
    decreases |ts|
  {
    if |ts| == 1 {
      TokensOfField(ts[0], d);
    } else if |ts| > 1 {
      TokensOfJoin(ts[1..], d);
      TokensSplit(ts[0], Join(ts[1..], d), d);
      TokensOfField(ts[0], d);
    }
  }

  /** A delimiter at the front of the rest of the line yields nothing. */
  lemma TokensSkip(s: string, i: nat, d: char)
    requires i < |s| && s[i] == d
    ensures Tokens(s[i..], d) == Tokens(s[i + 1..], d)
  {
    assert s[i..][1..] == s[i + 1..];
  }

  /** A delimiter-free run from `i` to a delimiter or the end of the line is the next token. */
  lemma TokensTake(s: string, i: nat, j: nat, d: char)
    requires i < j <= |s| && s[i] != d
    requires forall k :: i <= k < j ==> s[k] != d
    requires j < |s| ==> s[j] == d
    ensures Tokens(s[i..], d) == [s[i..j]] + Tokens(s[j..], d)
  {
    var t := s[i..];
    FieldEndExact(t, j - i, d);
    assert t[..j - i] == s[i..j];
    assert t[j - i..] == s[j..];
  }

  /** The `strtok` loop: skip delimiters, take the field up to the next delimiter, repeat until the line is used up. */
  method Tokenize(s: string, d: char) returns (tokens: seq<string>)
    ensures tokens == Tokens(s, d)
  {
    tokens := [];
    var i := 0;
    while i < |s|
      invariant 0 <= i <= |s|
      invariant tokens + Tokens(s[i..], d) == Tokens(s, d)
    {
      if s[i] == d {
        TokensSkip(s, i, d);
        i := i + 1;
      } else {
        var j := i;
        while j < |s| && s[j] != d
          invariant i <= j <= |s|
          invariant forall k :: i <= k < j ==> s[k] != d
        {
          j := j + 1;
        }
        TokensTake(s, i, j, d);
        tokens := tokens + [s[i..j]];
        i := j;
      }
    }
    assert s[|s|..] == [];
  }

  /** A position that ends a delimiter-free run at a delimiter or at the end of the line is the front field's end. */
  lemma FieldEndExact(s: string, k: nat, d: char)
    requires k <= |s|
    requires forall j :: 0 <= j < k ==> s[j] != d
    requires k < |s| ==> s[k] == d
    ensures FieldEnd(s, d) == k
  {
  }
}
