/**
 * String helpers shared by the statement renderer and the statement parser:
 * Go's `strings.Join`, and the two scanning steps the parser is built from.
 */
module Text {
  import opened Wrappers

  /** `strings.Join`: the parts in order, with `sep` between neighbours. */
  function Join(parts: seq<string>, sep: string): string
  {
    if |parts| == 0 then ""
    else if |parts| == 1 then parts[0]
    else parts[0] + sep + Join(parts[1..], sep)
  }

  predicate StartsWith(s: string, prefix: string)
  {
    |prefix| <= |s| && s[..|prefix|] == prefix
  }

  /** Consumes the literal `p` at the front of `s`, returning what follows it. */
  function Lit(p: string, s: string): (r: Option<string>)
    ensures r.Some? ==> s == p + r.value
  {
    if StartsWith(s, p) then
      assert s == s[..|p|] + s[|p|..];
      Some(s[|p|..])
    else
      None
  }

  /**
   * Splits `s` at the first occurrence of `c`: the token before it, and the
   * rest starting with `c`. Fails only when `c` does not occur (`UntilFinds`).
   */
  function Until(c: char, s: string): (r: Option<(string, string)>)
    ensures r.Some? ==> s == r.value.0 + r.value.1
    ensures r.Some? ==> c !in r.value.0 && |r.value.1| > 0 && r.value.1[0] == c
    decreases |s|
  {
    if |s| == 0 then None
    else if s[0] == c then Some(("", s))
    else
      match Until(c, s[1..])
      case None => None
      case Some(split) =>
        assert s == [s[0]] + s[1..];
        Some(([s[0]] + split.0, split.1))
  }

  lemma {:induction false} UntilFinds(c: char, s: string)
    requires c in s
    ensures Until(c, s).Some?
    decreases |s|
  {
    if s[0] != c {
      assert c in s[1..] by {
        var k :| 0 <= k < |s| && s[k] == c;
        assert s[1..][k - 1] == c;
      }
      UntilFinds(c, s[1..]);
    }
  }

  lemma LitCat(p: string, rest: string)
    ensures Lit(p, p + rest) == Some(rest)
  {
    assert (p + rest)[..|p|] == p;
    assert (p + rest)[|p|..] == rest;
  }

  /** The split at the first `c` is determined: a `c`-free token followed by `c`. */
  lemma UntilCat(c: char, token: string, rest: string)
    requires c !in token
    requires |rest| > 0 && rest[0] == c
    ensures Until(c, token + rest) == Some((token, rest))
  {
    var s := token + rest;
    assert s[|token|] == c;
    UntilFinds(c, s);
    var r := Until(c, s);
    var t', r' := r.value.0, r.value.1;
    assert s[|t'|] == r'[0] == c;
    assert forall k :: 0 <= k < |token| ==> s[k] == token[k] != c;
    assert forall k :: 0 <= k < |t'| ==> s[k] == t'[k] != c;
    assert t' == s[..|token|] == token;
    assert r' == s[|token|..] == rest;
  }

  // ------------------------------------------------------------- formats

  /**
   * `fmt.Sprintf` with only `%s` verbs: the format is given already split at
   * its holes, `lits[0] %s lits[1] %s ... lits[n]`, and `args` fill the holes.
   */
  function Fill(lits: seq<string>, args: seq<string>): string
    requires |lits| == |args| + 1
    decreases |args|
  {
    if |args| == 0 then lits[0] else lits[0] + args[0] + Fill(lits[1..], args[1..])
  }

  /** Every hole is followed by literal text, whose first character ends the hole. */
  predicate Delimited(lits: seq<string>)
  {
    |lits| > 0 && forall i :: 1 <= i < |lits| ==> |lits[i]| > 0
  }

  /** No argument contains the character that ends its hole. */
  predicate Fits(lits: seq<string>, args: seq<string>)
  {
    && |lits| == |args| + 1
    && forall i :: 0 <= i < |args| ==> Stops(lits[i + 1], args[i])
  }

  /** `lit` is not empty and its first character does not occur in `arg`. */
  predicate Stops(lit: string, arg: string)
  {
    |lit| > 0 && lit[0] !in arg
  }

  /**
   * Reads the holes back out of a filled format followed by arbitrary text:
   * each hole runs up to the first character of the literal after it.
   */
  function Unfill(lits: seq<string>, s: string): (r: Option<(seq<string>, string)>)
    requires Delimited(lits)
    ensures r.Some? ==> Fits(lits, r.value.0) && s == Fill(lits, r.value.0) + r.value.1
    decreases |lits|
  {
    match Lit(lits[0], s)
    case None => None
    case Some(a) =>
      if |lits| == 1 then Some(([], a))
      else
        match Until(lits[1][0], a)
        case None => None
        case Some(hole) =>
          match Unfill(lits[1..], hole.1)
          case None => None
          case Some(more) =>
            UnfillCons(lits, s, a, hole.0, hole.1, more.0, more.1);
            Some(([hole.0] + more.0, more.1))
  }

  /** One step of `Unfill`: a hole read up to its delimiter, then the remaining holes. */
  lemma {:induction false} UnfillCons(lits: seq<string>, s: string, a: string, hole: string, after: string,
                   more: seq<string>, rest: string)
    requires |lits| >= 2 && |lits[1]| > 0
    requires s == lits[0] + a && a == hole + after && lits[1][0] !in hole
    requires Fits(lits[1..], more) && after == Fill(lits[1..], more) + rest
    ensures Fits(lits, [hole] + more) && s == Fill(lits, [hole] + more) + rest
  {
    FillCons(lits, hole, more);
    forall i | 0 <= i < |[hole] + more|
      ensures Stops(lits[i + 1], ([hole] + more)[i])
    {
      if i > 0 {
        assert ([hole] + more)[i] == more[i - 1];
        assert lits[i + 1] == lits[1..][i];
      }
    }
  }

  lemma {:induction false} FillCons(lits: seq<string>, arg: string, args: seq<string>)
    requires |lits| == |args| + 2
    ensures Fill(lits, [arg] + args) == lits[0] + arg + Fill(lits[1..], args)
  {
    assert ([arg] + args)[1..] == args;
  }

  lemma {:induction false} UnfillFill(lits: seq<string>, args: seq<string>, rest: string)
    requires Delimited(lits) && Fits(lits, args)
    ensures Unfill(lits, Fill(lits, args) + rest) == Some((args, rest))
    decreases |args|
  {
    if |args| == 0 {
      LitCat(lits[0], rest);
    } else {
      assert [args[0]] + args[1..] == args;
      var tail := Fill(lits[1..], args[1..]) + rest;
      FillHead(lits, args, rest);
      FitsTail(lits, args);
      LitCat(lits[0], args[0] + tail);
      UntilCat(lits[1][0], args[0], tail);
      UnfillFill(lits[1..], args[1..], rest);
    }
  }

  lemma FillHead(lits: seq<string>, args: seq<string>, rest: string)
    requires |lits| == |args| + 1 && |args| > 0
    ensures Fill(lits, args) + rest == lits[0] + (args[0] + (Fill(lits[1..], args[1..]) + rest))
  {
  }

  /** The first hole fits, and so do the remaining ones. */
  lemma FitsTail(lits: seq<string>, args: seq<string>)
    requires Fits(lits, args) && |args| > 0
    ensures Stops(lits[1], args[0]) && Fits(lits[1..], args[1..])
  {
    forall i | 0 <= i < |args[1..]|
      ensures Stops(lits[1..][i + 1], args[1..][i])
    {
      assert lits[1..][i + 1] == lits[i + 2];
      assert args[1..][i] == args[i + 1];
    }
  }

  lemma FillFront(lits: seq<string>, args: seq<string>)
    requires |lits| == |args| + 1
    ensures StartsWith(Fill(lits, args), lits[0])
  {
    if |args| > 0 {
      assert Fill(lits, args) == lits[0] + (args[0] + Fill(lits[1..], args[1..]));
    }
  }

  /** Filling hole `k` separately: the text before it, the argument, the text after it. */
  lemma {:induction false} FillSplit(lits: seq<string>, args: seq<string>, k: nat)
    requires |lits| == |args| + 1 && k < |args|
    ensures Fill(lits, args)
         == Fill(lits[..k + 1], args[..k]) + args[k] + Fill(lits[k + 1..], args[k + 1..])
    decreases k
  {
    if k > 0 {
      FillSplit(lits[1..], args[1..], k - 1);
      assert lits[..k + 1][1..] == lits[1..][..k];
      assert args[..k][1..] == args[1..][..k - 1];
      assert lits[1..][k..] == lits[k + 1..];
      assert args[1..][k..] == args[k + 1..];
    }
  }
}
