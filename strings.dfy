/**
 * The JavaScript string operations the gateway relies on, on `seq<char>`:
 * `split` with a one-character separator, the `\s` trims, `indexOf`,
 * `replace` with a string pattern, and `toLowerCase` (ASCII letters only).
 */
module Strings {
  import opened Wrappers

  /** The characters of JavaScript's `\s` class (WhiteSpace and LineTerminator code points). */
  predicate IsWhitespace(c: char) {
    || c == '\t' || c == '\n' || c == '\U{000B}' || c == '\U{000C}' || c == '\r' || c == ' '
    || c == '\U{00A0}' || c == '\U{1680}' || ('\U{2000}' <= c <= '\U{200A}')
    || c == '\U{2028}' || c == '\U{2029}' || c == '\U{202F}' || c == '\U{205F}'
    || c == '\U{3000}' || c == '\U{FEFF}'
  }

  predicate AllWhitespace(s: string) {
    forall i :: 0 <= i < |s| ==> IsWhitespace(s[i])
  }

  predicate NoWhitespace(s: string) {
    forall i :: 0 <= i < |s| ==> !IsWhitespace(s[i])
  }

  /** The end of the whitespace run that starts at `k`. */
  function RunEnd(s: string, k: nat): (n: nat)
    requires k <= |s|
    ensures k <= n <= |s| && (n == |s| || !IsWhitespace(s[n]))
    ensures forall j :: k <= j < n ==> IsWhitespace(s[j])
    decreases |s| - k
  {
    if k < |s| && IsWhitespace(s[k]) then RunEnd(s, k + 1) else k
  }

  /** The start of the whitespace run that ends at `k`. */
  function RunStart(s: string, k: nat): (n: nat)
    requires k <= |s|
    ensures n <= k && (n == 0 || !IsWhitespace(s[n - 1]))
    ensures forall j :: n <= j < k ==> IsWhitespace(s[j])
  {
    if k > 0 && IsWhitespace(s[k - 1]) then RunStart(s, k - 1) else k
  }

  /** The replace of `^\s*` with the empty string: drops the leading whitespace run. */
  function TrimStart(s: string): (r: string)
    ensures |r| <= |s| && r == s[|s| - |r|..]
    ensures AllWhitespace(s[..|s| - |r|])
    ensures r == [] || !IsWhitespace(r[0])
  {
    s[RunEnd(s, 0)..]
  }

  /** The replace of `\s*$` with the empty string: drops the trailing whitespace run. */
  function TrimEnd(s: string): (r: string)
    ensures |r| <= |s| && r == s[..|r|]
    ensures AllWhitespace(s[|r|..])
    ensures r == [] || !IsWhitespace(r[|r| - 1])
  {
    s[..RunStart(s, |s|)]
  }

  /** Both replaces applied to one `split` entry. */
  function Trim(s: string): string {
    TrimEnd(TrimStart(s))
  }

  /**
   * `Trim` leaves the infix of `s` that remains after removing whitespace at
   * both ends, and that infix neither starts nor ends with whitespace.
   */
  lemma TrimIsInfix(s: string) returns (i: nat)
    ensures i + |Trim(s)| <= |s| && Trim(s) == s[i..i + |Trim(s)|]
    ensures AllWhitespace(s[..i]) && AllWhitespace(s[i + |Trim(s)|..])
    ensures Trim(s) == [] || (!IsWhitespace(Trim(s)[0]) && !IsWhitespace(Trim(s)[|Trim(s)| - 1]))
  {
    var t := TrimStart(s);
    var r := TrimEnd(t);
    i := |s| - |t|;
    InfixOfSuffix(s, t, r, i);
  }

  lemma InfixOfSuffix(s: string, t: string, r: string, i: nat)
    requires i <= |s| && t == s[i..] && AllWhitespace(s[..i]) && (t == [] || !IsWhitespace(t[0]))
    requires |r| <= |t| && r == t[..|r|] && AllWhitespace(t[|r|..]) && (r == [] || !IsWhitespace(r[|r| - 1]))
    ensures r == s[i..i + |r|] && AllWhitespace(s[..i]) && AllWhitespace(s[i + |r|..])
    ensures r == [] || (!IsWhitespace(r[0]) && !IsWhitespace(r[|r| - 1]))
  {
    assert s[i + |r|..] == t[|r|..];
    if |r| > 0 {
      assert r[0] == t[0];
    }
  }

  /** A character absent from `s` is absent from `Trim(s)`. */
  lemma TrimKeepsAbsent(s: string, c: char)
    requires c !in s
    ensures c !in Trim(s)
  {
    var i := TrimIsInfix(s);
    var t := Trim(s);
    assert forall k :: 0 <= k < |t| ==> t[k] == s[i + k];
  }

  lemma {:induction false} TrimNoWhitespace(s: string)
    requires NoWhitespace(s)
    ensures Trim(s) == s
  {
  }

  /** A single blank before a whitespace-free entry is all `Trim` removes. */
  lemma {:induction false} TrimLeadingBlank(s: string)
    requires NoWhitespace(s)
    ensures Trim(" " + s) == s
  {
    assert (" " + s)[1..] == s;
    assert TrimStart(" " + s) == TrimStart(s);
  }

  /** The position of the first `c` in `s`. */
  function FirstIndex(s: string, c: char): (i: nat)
    requires c in s
    ensures i < |s| && s[i] == c && c !in s[..i]
  {
    if s[0] == c then 0
    else
      var j := FirstIndex(s[1..], c);
      assert s[..j + 1] == [s[0]] + s[1..][..j];
      j + 1
  }

  lemma FirstIndexAfter(p: string, c: char, t: string)
    requires c !in p
    ensures c in p + [c] + t && FirstIndex(p + [c] + t, c) == |p|
  {
    var s := p + [c] + t;
    assert s[|p|] == c;
  }

  /** `s.split(sep)` for a one-character separator: the pieces between separators, in order. */
  function Split(s: string, sep: char): (parts: seq<string>)
    ensures |parts| >= 1
    ensures forall i :: 0 <= i < |parts| ==> sep !in parts[i]
    decreases |s|
  {
    if sep !in s then [s]
    else
      var i := FirstIndex(s, sep);
      [s[..i]] + Split(s[i + 1..], sep)
  }

  /** `parts.join(sep)`. */
  function Join(parts: seq<string>, sep: char): string
    decreases |parts|
  {
    if |parts| == 0 then ""
    else if |parts| == 1 then parts[0]
    else parts[0] + [sep] + Join(parts[1..], sep)
  }

  /** The first piece of a split is a prefix; with a separator present, so is the first piece followed by it. */
  lemma SplitHead(s: string, sep: char)
    ensures Split(s, sep)[0] <= s
    ensures sep !in s ==> Split(s, sep) == [s]
    ensures sep in s ==> |Split(s, sep)| >= 2 && Split(s, sep)[0] + [sep] + s[|Split(s, sep)[0]| + 1..] == s
  {
    if sep in s {
      var i := FirstIndex(s, sep);
      assert Split(s, sep)[0] == s[..i];
      assert s[..i] + [sep] + s[i + 1..] == s;
    }
  }

  /**
   * The first two pieces of a split with a separator in it, and the separator
   * between them, are the whole string or are followed by a further separator.
   */
  lemma SplitFirstTwo(s: string, sep: char)
    ensures Split(s, sep)[0] <= s
    ensures sep !in s ==> Split(s, sep)[0] == s
    ensures |Split(s, sep)| >= 2 <==> sep in s
    ensures |Split(s, sep)| >= 2 ==>
      var two := Split(s, sep)[0] + [sep] + Split(s, sep)[1];
      two == s || two + [sep] <= s
  {
    SplitHead(s, sep);
    if sep in s {
      var head := Split(s, sep)[0];
      var rest := s[|head| + 1..];
      SplitCons(head, rest, sep);
      SecondPiece(head + [sep], rest, sep);
    }
  }

  /** After a prefix, the first piece of the rest is the whole rest or is followed by a separator. */
  lemma SecondPiece(front: string, rest: string, sep: char)
    ensures var two := front + Split(rest, sep)[0];
      two == front + rest || two + [sep] <= front + rest
  {
    SplitHead(rest, sep);
    if sep in rest {
      var second := Split(rest, sep)[0];
      assert second + [sep] <= rest;
      PrefixAfter(front, second + [sep], rest);
      assert front + (second + [sep]) == front + second + [sep];
    }
  }

  lemma PrefixAfter(a: string, b: string, c: string)
    requires b <= c
    ensures a + b <= a + c
  {
    assert (a + c)[..|a + b|] == a + b;
  }

  /** Splitting at a first separator: the piece before it, then the split of the rest. */
  lemma SplitCons(head: string, rest: string, sep: char)
    requires sep !in head
    ensures Split(head + [sep] + rest, sep) == [head] + Split(rest, sep)
  {
    var s := head + [sep] + rest;
    FirstIndexAfter(head, sep, rest);
    assert s[..|head|] == head;
    assert s[|head| + 1..] == rest;
  }

  /** Joining a piece in front of at least one other piece puts a separator between them. */
  lemma JoinCons(head: string, tail: seq<string>, sep: char)
    requires |tail| >= 1
    ensures Join([head] + tail, sep) == head + [sep] + Join(tail, sep)
  {
    assert ([head] + tail)[1..] == tail;
  }

  /** Joining the pieces of a split gives back the original string. */
  lemma {:induction false} JoinSplit(s: string, sep: char)
    ensures Join(Split(s, sep), sep) == s
    decreases |s|
  {
    if sep in s {
      var i := FirstIndex(s, sep);
      var head, rest := s[..i], s[i + 1..];
      assert s == head + [sep] + rest;
      SplitCons(head, rest, sep);
      JoinSplit(rest, sep);
      JoinCons(head, Split(rest, sep), sep);
    } else {
      assert Split(s, sep) == [s];
    }
  }

  /** Splitting a join gives back the pieces, provided none contains the separator. */
  lemma {:induction false} SplitJoin(parts: seq<string>, sep: char)
    requires |parts| >= 1
    requires forall i :: 0 <= i < |parts| ==> sep !in parts[i]
    ensures Split(Join(parts, sep), sep) == parts
    decreases |parts|
  {
    if |parts| == 1 {
      assert Join(parts, sep) == parts[0];
      assert sep !in parts[0];
    } else {
      var head, tail := parts[0], parts[1..];
      assert parts == [head] + tail;
      assert forall i :: 0 <= i < |tail| ==> sep !in tail[i] by {
        forall i | 0 <= i < |tail| ensures sep !in tail[i] { assert tail[i] == parts[i + 1]; }
      }
      JoinCons(head, tail, sep);
      SplitCons(head, Join(tail, sep), sep);
      SplitJoin(tail, sep);
    }
  }

  /** Every character of a join is the separator or comes from one of the pieces. */
  lemma {:induction false} JoinChar(parts: seq<string>, sep: char, c: char)
    requires c in Join(parts, sep)
    ensures c == sep || exists i :: 0 <= i < |parts| && c in parts[i]
    decreases |parts|
  {
    if |parts| > 1 && c != sep && c !in parts[0] {
      JoinChar(parts[1..], sep, c);
      var i :| 0 <= i < |parts| - 1 && c in parts[1..][i];
      assert c in parts[i + 1];
    }
  }

  /** A three-element sequence, element by element. */
  lemma SeqOfThree<T>(s: seq<T>, a: T, b: T, c: T)
    requires |s| == 3 && s[0] == a && s[1] == b && s[2] == c
    ensures s == [a, b, c]
  {
  }

  /** `toLowerCase` on one character; only ASCII letters are mapped. */
  function LowerChar(c: char): char {
    if 'A' <= c <= 'Z' then (c as int + 32) as char else c
  }

  function ToLower(s: string): (r: string)
    ensures |r| == |s|
    ensures forall i :: 0 <= i < |s| ==> r[i] == LowerChar(s[i])
  {
    seq(|s|, i requires 0 <= i < |s| => LowerChar(s[i]))
  }

  predicate IsLowerCase(s: string) {
    ToLower(s) == s
  }

  lemma ToLowerIsLowerCase(s: string)
    ensures IsLowerCase(ToLower(s))
  {
    assert forall i :: 0 <= i < |s| ==> LowerChar(LowerChar(s[i])) == LowerChar(s[i]);
  }

  predicate OccursAt(s: string, p: string, i: nat) {
    i + |p| <= |s| && s[i..i + |p|] == p
  }

  /** `s.indexOf(p, from)`, `None` for -1. */
  function IndexOfFrom(s: string, p: string, from: nat): (r: Option<nat>)
    requires from <= |s|
    ensures r.Some? ==> from <= r.value && OccursAt(s, p, r.value)
    ensures forall j: nat :: from <= j && (r.None? || j < r.value) ==> !OccursAt(s, p, j)
    decreases |s| - from
  {
    if OccursAt(s, p, from) then Some(from)
    else if from == |s| then None
    else IndexOfFrom(s, p, from + 1)
  }

  /** `s.indexOf(p)`: the first position at which `p` occurs, if any. */
  function IndexOf(s: string, p: string): (r: Option<nat>)
    ensures r.Some? ==> OccursAt(s, p, r.value)
    ensures forall j: nat :: (r.None? || j < r.value) ==> !OccursAt(s, p, j)
  {
    IndexOfFrom(s, p, 0)
  }

  /**
   * GetSubstitution of ECMA-262 for a string pattern. With no capture
   * groups only `$$`, `$&`, `` $` `` and `$'` are special; every other `$`
   * is copied as it stands.
   */
  function Substitute(template: string, matched: string, before: string, after: string): string
    decreases |template|
  {
    if |template| == 0 then ""
    else if |template| >= 2 && template[0] == '$' && template[1] == '$' then
      "$" + Substitute(template[2..], matched, before, after)
    else if |template| >= 2 && template[0] == '$' && template[1] == '&' then
      matched + Substitute(template[2..], matched, before, after)
    else if |template| >= 2 && template[0] == '$' && template[1] == '`' then
      before + Substitute(template[2..], matched, before, after)
    else if |template| >= 2 && template[0] == '$' && template[1] == '\'' then
      after + Substitute(template[2..], matched, before, after)
    else
      [template[0]] + Substitute(template[1..], matched, before, after)
  }

  /** A replacement without `$` is inserted literally. */
  lemma {:induction false} SubstitutePlain(template: string, matched: string, before: string, after: string)
    requires '$' !in template
    ensures Substitute(template, matched, before, after) == template
    decreases |template|
  {
    if |template| > 0 {
      assert template[0] != '$';
      assert '$' !in template[1..];
      SubstitutePlain(template[1..], matched, before, after);
      assert template == [template[0]] + template[1..];
    }
  }

  /** `s.replace(pattern, replacement)` with a string `pattern`: the first literal occurrence is replaced. */
  function ReplaceFirst(s: string, pattern: string, replacement: string): string {
    match IndexOf(s, pattern)
    case None => s
    case Some(i) =>
      s[..i] + Substitute(replacement, pattern, s[..i], s[i + |pattern|..]) + s[i + |pattern|..]
  }

  /**
   * When `pattern` first occurs at `i`, a `$`-free replacement takes exactly
   * that occurrence's place; a string without any occurrence is unchanged.
   */
  lemma ReplaceFirstLiteral(s: string, pattern: string, replacement: string, i: nat)
    requires '$' !in replacement
    requires OccursAt(s, pattern, i)
    requires forall j: nat :: j < i ==> !OccursAt(s, pattern, j)
    ensures ReplaceFirst(s, pattern, replacement) == s[..i] + replacement + s[i + |pattern|..]
  {
    var k := IndexOf(s, pattern);
    assert k == Some(i);
    SubstitutePlain(replacement, pattern, s[..i], s[i + |pattern|..]);
  }

  /** A pattern whose first character never appears in `s` leaves `s` as it was. */
  lemma ReplaceFirstAbsent(s: string, pattern: string, replacement: string)
    requires |pattern| > 0 && pattern[0] !in s
    ensures ReplaceFirst(s, pattern, replacement) == s
  {
    forall j: nat | j + |pattern| <= |s|
      ensures !OccursAt(s, pattern, j)
    {
      assert s[j..j + |pattern|][0] == s[j];
    }
  }
}
