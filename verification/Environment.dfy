/** Environment variables: merged and printed as `KEY=value` at create, parsed back at inspect, and
    carried over to a clone. */
module Environment {
  import opened Wrappers

  type Env = map<string, string>

  function FirstEquals(s: string): (i: nat)
    ensures i <= |s|
    ensures i < |s| ==> s[i] == '='
    ensures forall j | 0 <= j < i :: s[j] != '='
  {
    if |s| == 0 || s[0] == '=' then 0 else 1 + FirstEquals(s[1..])
  }

  /** `split_once('=')` */
  function SplitOnce(s: string): Option<(string, string)> {
    var i := FirstEquals(s);
    if i == |s| then None else Some((s[..i], s[i + 1..]))
  }

  /** `parse_env_vars`: entries without `=` are dropped, a later entry for a key replaces an earlier one. */
  function ParseEnv(entries: seq<string>): Env
  {
    if |entries| == 0 then map[]
    else
      var front := ParseEnv(entries[..|entries| - 1]);
      match SplitOnce(entries[|entries| - 1])
      case None => front
      case Some((k, v)) => front[k := v]
  }

  function Print(k: string, v: string): string { k + "=" + v }

  /** Image entries first, then the caller's. */
  function Merged(image: seq<string>, user: Env): Env { ParseEnv(image) + user }

  /** `out` prints every binding of `m` once, in some order. */
  ghost predicate Prints(out: seq<string>, m: Env, order: seq<string>) {
    && |order| == |out|
    && (forall k :: k in order <==> k in m)
    && (forall i, j | 0 <= i < j < |order| :: order[i] != order[j])
    && forall i | 0 <= i < |out| :: order[i] in m && out[i] == Print(order[i], m[order[i]])
  }

  /** `build_merged_env`: fills the map entry by entry, then lists it in the map's own order. */
  method BuildMergedEnv(image: seq<string>, user: Env) returns (out: seq<string>)
    ensures exists order :: Prints(out, Merged(image, user), order)
  {
    var env: Env := map[];
    for i := 0 to |image|
      invariant env == ParseEnv(image[..i])
    {
      assert image[..i + 1][..i] == image[..i];
      match SplitOnce(image[i]) {
        case Some((k, v)) => env := env[k := v];
        case None =>
      }
    }
    assert image[..|image|] == image;
    env := env + user;
    out := [];
    ghost var order: seq<string> := [];
    var todo := env.Keys;
    while todo != {}
      invariant todo <= env.Keys
      invariant |order| == |out|
      invariant forall k :: k in order <==> k in env && k !in todo
      invariant forall i, j | 0 <= i < j < |order| :: order[i] != order[j]
      invariant forall i | 0 <= i < |out| :: order[i] in env && out[i] == Print(order[i], env[order[i]])
      decreases todo
    {
      var k :| k in todo;
      out, order := out + [Print(k, env[k])], order + [k];
      todo := todo - {k};
    }
    assert Prints(out, Merged(image, user), order);
  }

  predicate NoEquals(k: string) { '=' !in k }

  lemma SplitPrinted(k: string, v: string)
    requires NoEquals(k)
    ensures SplitOnce(Print(k, v)) == Some((k, v))
  {
    var s := Print(k, v);
    assert s[|k|] == '=';
    assert FirstEquals(s) == |k| by {
      assert forall j | 0 <= j < |k| :: s[j] == k[j];
    }
    assert s[..|k|] == k && s[|k| + 1..] == v;
  }

  /** An entry is split at its first equals sign. */
  lemma SplitOnceIff(s: string, k: string, v: string)
    ensures SplitOnce(s) == Some((k, v)) <==> NoEquals(k) && s == k + "=" + v
  {
    if NoEquals(k) && s == k + "=" + v { SplitPrinted(k, v); }
    if SplitOnce(s) == Some((k, v)) {
      var i := FirstEquals(s);
      assert s == s[..i] + [s[i]] + s[i + 1..];
    }
  }

  /** The entry binds the key. */
  predicate Binds(entry: string, k: string) { k + "=" <= entry }

  lemma SplitBinds(s: string, k: string)
    requires NoEquals(k)
    ensures Binds(s, k) <==> SplitOnce(s).Some? && SplitOnce(s).value.0 == k
  {
    if Binds(s, k) {
      assert s == k + "=" + s[|k| + 1..];
      SplitOnceIff(s, k, s[|k| + 1..]);
    }
    if SplitOnce(s).Some? && SplitOnce(s).value.0 == k { SplitOnceIff(s, k, SplitOnce(s).value.1); }
  }

  /** What parsing gives: a key has a value exactly when the last entry that binds it says so; entries without
      an equals sign bind nothing. */
  lemma {:induction false} ParseEnvIff(entries: seq<string>, k: string, v: string)
    ensures k in ParseEnv(entries) && ParseEnv(entries)[k] == v
       <==> (&& NoEquals(k)
             && exists i :: 0 <= i < |entries| && entries[i] == k + "=" + v && NoneAfter(entries, i, k))
  {
    hide SplitOnce, Binds;
    if |entries| > 0 {
      var n := |entries| - 1;
      var init, e := entries[..n], entries[n];
      ParseEnvIff(init, k, v);
      ParsedKeys(entries, k);
      if NoEquals(k) {
        SplitBinds(e, k);
        SplitOnceIff(e, k, v);
        if Binds(e, k) {
          assert e == k + "=" + v ==> NoneAfter(entries, n, k);
          assert forall i | 0 <= i < n :: !NoneAfter(entries, i, k);
        } else {
          assert e != k + "=" + v by { PrintBinds(k, v); }
          assert forall i | 0 <= i < n :: NoneAfter(entries, i, k) <==> NoneAfter(init, i, k);
          assert forall i | 0 <= i < n :: init[i] == entries[i];
        }
      }
    }
  }

  lemma PrintBinds(k: string, v: string)
    ensures Binds(k + "=" + v, k)
  {
  }

  predicate NoneAfter(entries: seq<string>, i: int, k: string)
    requires 0 <= i < |entries|
  {
    forall j | i < j < |entries| :: !Binds(entries[j], k)
  }

  /** Parsed keys never contain `=`. */
  lemma {:induction false} ParsedKeys(entries: seq<string>, k: string)
    ensures k in ParseEnv(entries) ==> NoEquals(k)
  {
    if |entries| > 0 { ParsedKeys(entries[..|entries| - 1], k); }
  }

  lemma {:induction false} ParsePrinted(out: seq<string>, m: Env, order: seq<string>, k: string)
    requires |order| == |out|
    requires forall i | 0 <= i < |out| :: order[i] in m && NoEquals(order[i]) && out[i] == Print(order[i], m[order[i]])
    ensures k in ParseEnv(out) <==> k in order
    ensures k in order ==> k in m && ParseEnv(out)[k] == m[k]
  {
    if |out| > 0 {
      var n := |out| - 1;
      ParsePrinted(out[..n], m, order[..n], k);
      SplitPrinted(order[n], m[order[n]]);
      assert order == order[..n] + [order[n]];
    }
  }

  /** Printing and parsing back returns the same map if and only if no key contains `=`. */
  lemma PrintParseIff(out: seq<string>, m: Env, order: seq<string>)
    requires Prints(out, m, order)
    ensures ParseEnv(out) == m <==> forall k | k in m :: NoEquals(k)
  {
    if forall k | k in m :: NoEquals(k) {
      forall k: string ensures (k in ParseEnv(out) <==> k in m) && (k in m ==> ParseEnv(out)[k] == m[k]) {
        ParsePrinted(out, m, order, k);
      }
    } else {
      var k :| k in m && !NoEquals(k);
      ParsedKeys(out, k);
    }
  }

  /** A binding whose key is clean survives printing as a key, whatever the others are. */
  lemma {:induction false} PrintedKeyParsed(out: seq<string>, k: string, v: string)
    requires NoEquals(k) && Print(k, v) in out
    ensures k in ParseEnv(out)
  {
    var n := |out| - 1;
    if out[n] == Print(k, v) {
      SplitPrinted(k, v);
    } else {
      assert Print(k, v) in out[..n];
      PrintedKeyParsed(out[..n], k, v);
    }
  }

  /** What a clone hands to create: the source's parsed environment, overridden. */
  function CloneRequest(source: Env, extra: Env): Env { source + extra }

  /** Environment inheritance through clone: the clone's environment is exactly the source's, overridden
      by the extra variables, if and only if no extra key contains `=`. The source may have been created
      with any variables at all. */
  lemma CloneInheritsIff(image: seq<string>, user: Env, src: seq<string>, srcOrder: seq<string>,
                         extra: Env, dst: seq<string>, dstOrder: seq<string>)
    requires Prints(src, Merged(image, user), srcOrder)
    requires Prints(dst, Merged(image, CloneRequest(ParseEnv(src), extra)), dstOrder)
    ensures ParseEnv(dst) == ParseEnv(src) + extra <==> forall k | k in extra :: NoEquals(k)
  {
    hide ParseEnv, SplitOnce, Print;
    var source := ParseEnv(src);
    var wanted := source + extra;
    forall k | k in ParseEnv(image) ensures k in source { ImageKeySurvives(image, user, src, srcOrder, k); }
    assert Merged(image, CloneRequest(source, extra)) == wanted;
    PrintParseIff(dst, wanted, dstOrder);
    forall k | k in source ensures NoEquals(k) { ParsedKeys(src, k); }
    assert forall k :: k in wanted <==> k in source || k in extra;
  }

  lemma ImageKeySurvives(image: seq<string>, user: Env, src: seq<string>, srcOrder: seq<string>, k: string)
    requires Prints(src, Merged(image, user), srcOrder) && k in ParseEnv(image)
    ensures k in ParseEnv(src)
  {
    hide ParseEnv, Print;
    ParsedKeys(image, k);
    var i :| 0 <= i < |srcOrder| && srcOrder[i] == k;
    assert src[i] == Print(k, Merged(image, user)[k]);
    PrintedKeyParsed(src, k, Merged(image, user)[k]);
  }
}
