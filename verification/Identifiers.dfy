/** Containerd identifiers: the byte loop of `validate_identifier` against the grammar it stands for. */
module Identifiers {
  import opened Wrappers
  import opened Bytes

  const MAX_IDENTIFIER_LEN: nat := 76

  predicate IsAlnum(b: Byte) { IsDigit(b) || 65 <= b <= 90 || 97 <= b <= 122 }

  /** `.`, `_` or `-` */
  predicate IsSep(b: Byte) { b == 46 || b == 95 || b == 45 }

  /** Length of the longest alphanumeric prefix. */
  function AlnumPrefix(s: seq<Byte>): (n: nat)
    ensures n <= |s|
    ensures forall i | 0 <= i < n :: IsAlnum(s[i])
    ensures n < |s| ==> !IsAlnum(s[n])
  {
    if |s| == 0 || !IsAlnum(s[0]) then 0 else 1 + AlnumPrefix(s[1..])
  }

  /** The grammar `alnum+ (sep alnum+)*`. */
  predicate Words(s: seq<Byte>)
    decreases |s|
  {
    var n := AlnumPrefix(s);
    n > 0 && (n == |s| || (IsSep(s[n]) && Words(s[n + 1..])))
  }

  predicate ValidIdentifier(s: seq<Byte>) { 1 <= |s| <= MAX_IDENTIFIER_LEN && Words(s) }

  /** The same language described position by position. */
  predicate LocalShape(s: seq<Byte>) {
    && |s| > 0 && IsAlnum(s[0]) && IsAlnum(s[|s| - 1])
    && (forall i | 0 <= i < |s| :: IsAlnum(s[i]) || IsSep(s[i]))
    && forall i | 0 < i < |s| :: !(IsSep(s[i]) && IsSep(s[i - 1]))
  }

  /** A word that starts well keeps its shape when its alphanumeric prefix and separator are cut off. */
  lemma {:induction false} WordsIffLocalShape(s: seq<Byte>)
    ensures Words(s) <==> LocalShape(s)
    decreases |s|
  {
    var n := AlnumPrefix(s);
    if n == 0 || n == |s| {
    } else if IsSep(s[n]) {
      var t := s[n + 1..];
      WordsIffLocalShape(t);
      if LocalShape(t) { ShapeAfterCut(s, n); }
      if LocalShape(s) { ShapeBeforeCut(s, n); }
    }
  }

  lemma ShapeAfterCut(s: seq<Byte>, n: nat)
    requires 0 < n < |s| && (forall i | 0 <= i < n :: IsAlnum(s[i])) && IsSep(s[n]) && LocalShape(s[n + 1..])
    ensures LocalShape(s)
  {
    var t := s[n + 1..];
    forall i | 0 <= i < |s| ensures IsAlnum(s[i]) || IsSep(s[i]) {
      if i > n { assert s[i] == t[i - n - 1]; }
    }
    forall i | 0 < i < |s| ensures !(IsSep(s[i]) && IsSep(s[i - 1])) {
      if i > n + 1 { assert s[i] == t[i - n - 1] && s[i - 1] == t[i - n - 2]; }
      else if i == n + 1 { assert s[i] == t[0]; }
      else if i < n { assert IsAlnum(s[i]); }
      else { assert IsAlnum(s[n - 1]); }
    }
    assert s[|s| - 1] == t[|t| - 1];
  }

  lemma ShapeBeforeCut(s: seq<Byte>, n: nat)
    requires 0 < n < |s| && IsSep(s[n]) && LocalShape(s)
    ensures LocalShape(s[n + 1..])
  {
    var t := s[n + 1..];
    assert n < |s| - 1;
    var first := s[n + 1];
    assert IsAlnum(first) || IsSep(first);
    assert !IsSep(first);
    assert forall i | 0 <= i < |t| :: t[i] == s[n + 1 + i];
    forall i | 0 < i < |t| ensures !(IsSep(t[i]) && IsSep(t[i - 1])) {
      var j := n + 1 + i;
      assert !(IsSep(s[j]) && IsSep(s[j - 1]));
    }
  }

  /** ASCII letters, digits and three separators. */
  predicate Allowed(c: char) { '0' <= c <= '9' || 'A' <= c <= 'Z' || 'a' <= c <= 'z' || c in "._-" }

  /** Which bytes are which, in characters. */
  lemma Classes(b: Byte)
    ensures var c := b as int as char;
            && (IsSep(b) <==> c == '.' || c == '_' || c == '-')
            && (IsAlnum(b) <==> '0' <= c <= '9' || 'A' <= c <= 'Z' || 'a' <= c <= 'z')
            && (Allowed(c) <==> IsAlnum(b) || IsSep(b))
  {
  }

  datatype IdentifierError = Empty | TooLong | BadBoundary | DoubledSeparator | BadCharacter

  /** Accepts exactly the identifiers of 1 to 76 bytes in `alnum+ (sep alnum+)*`. */
  method ValidateIdentifier(id: seq<Byte>) returns (r: Result<(), IdentifierError>)
    ensures r.Ok? <==> ValidIdentifier(id)
    ensures r.Ok? ==> 1 <= |id| <= 76 && forall i | 0 <= i < |id| :: Allowed(id[i] as int as char)
    ensures r == Err(Empty) <==> |id| == 0
    ensures r == Err(TooLong) <==> |id| > MAX_IDENTIFIER_LEN
    ensures r == Err(BadBoundary) <==> 1 <= |id| <= MAX_IDENTIFIER_LEN && !(IsAlnum(id[0]) && IsAlnum(id[|id| - 1]))
  {
    hide Words, AlnumPrefix;
    WordsIffLocalShape(id);
    forall i | 0 <= i < |id| ensures Allowed(id[i] as int as char) <==> IsAlnum(id[i]) || IsSep(id[i]) {
      Classes(id[i]);
    }
    if |id| == 0 { return Err(Empty); }
    if |id| > MAX_IDENTIFIER_LEN { return Err(TooLong); }
    if !IsAlnum(id[0]) || !IsAlnum(id[|id| - 1]) { return Err(BadBoundary); }
    if |id| <= 2 { return Ok(()); }
    var prevSep := false;
    for i := 1 to |id| - 1
      invariant prevSep == IsSep(id[i - 1])
      invariant forall j | 0 <= j < i :: IsAlnum(id[j]) || IsSep(id[j])
      invariant forall j | 0 < j < i :: !(IsSep(id[j]) && IsSep(id[j - 1]))
    {
      if IsAlnum(id[i]) {
        prevSep := false;
      } else if IsSep(id[i]) {
        if prevSep { return Err(DoubledSeparator); }
        prevSep := true;
      } else {
        return Err(BadCharacter);
      }
    }
    r := Ok(());
  }
}
