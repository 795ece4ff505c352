/** The slice of JavaScript and lodash semantics ng-unit relies on:
    values and thrown errors, `Array.prototype.join`, `String.prototype.indexOf`
    and `replace` with a string replacement, lodash `uniq`, and the
    insertion-ordered `Map`. */
module Js {
  import opened Wrappers

  /** A JavaScript value, as far as ng-unit looks into one. Numbers are
      modelled as integers. */
  datatype JsValue = Undefined | Null | Bool(b: bool) | Num(n: int) | Str(s: string) | Obj(ref: object)

  /** lodash `isNil`: `undefined` or `null`, and nothing else. */
  predicate IsNil(v: JsValue) {
    v.Undefined? || v.Null?
  }

  /** A thrown error: `new Error(message)`, the TypeError the engine raises
      when a property of `undefined` is read or `undefined` is called, or a
      DOMException the document raises, known by its name. */
  datatype Exception = Error(message: string) | TypeError(message: string) | DomException(name: string)

  // ---------------------------------------------------------------- characters

  /** `[a-z]` under the `i` flag: the ASCII letters of either case. */
  predicate IsAsciiLetter(c: char) {
    ('a' <= c <= 'z') || ('A' <= c <= 'Z')
  }

  predicate IsDigit(c: char) {
    '0' <= c <= '9'
  }

  /** The characters a regular-expression `.` does not match. */
  predicate IsLineTerminator(c: char) {
    c == '\n' || c == '\r' || c == '\U{2028}' || c == '\U{2029}'
  }

  // ------------------------------------------------------------------ strings

  /** `Array.prototype.join(sep)` over strings. */
  function Join(parts: seq<string>, sep: string): string
  {
    if |parts| == 0 then ""
    else if |parts| == 1 then parts[0]
    else parts[0] + sep + Join(parts[1..], sep)
  }

  predicate OccursAt(s: string, pat: string, i: nat) {
    i + |pat| <= |s| && s[i..i + |pat|] == pat
  }

  predicate ContainsChar(s: string, c: char) {
    exists i :: 0 <= i < |s| && s[i] == c
  }

  /** The first index at or after `from` holding the character `c`. */
  function FindChar(s: string, c: char, from: nat): (r: Option<nat>)
    decreases |s| - from
    ensures r.Some? ==> from <= r.value < |s| && s[r.value] == c
    ensures r.Some? ==> forall j :: from <= j < r.value ==> s[j] != c
    ensures r.None? ==> forall j :: from <= j < |s| ==> s[j] != c
  {
    if from >= |s| then None
    else if s[from] == c then Some(from)
    else FindChar(s, c, from + 1)
  }

  /** The text before the first `c`, or all of `s`: the first piece of
      `s.split(c)`. */
  function Before(s: string, c: char): (r: string)
    ensures r <= s && c !in r
    ensures |r| == |s| || s[|r|] == c
  {
    if |s| == 0 || s[0] == c then "" else [s[0]] + Before(s[1..], c)
  }

  /** `s.replace(/c/g, "")`: every occurrence of `c` removed. */
  function RemoveAll(s: string, c: char): (r: string)
    ensures c !in r
  {
    if |s| == 0 then ""
    else if s[0] == c then RemoveAll(s[1..], c)
    else [s[0]] + RemoveAll(s[1..], c)
  }

  lemma {:induction false} RemoveAllConcat(a: string, b: string, c: char)
    ensures RemoveAll(a + b, c) == RemoveAll(a, c) + RemoveAll(b, c)
  {
    if |a| > 0 {
      assert (a + b)[1..] == a[1..] + b;
      RemoveAllConcat(a[1..], b, c);
    } else {
      assert a + b == b;
    }
  }

  /** One character is dropped when it is `c` and kept otherwise; with
      RemoveAllConcat this fixes RemoveAll on every string. */
  lemma RemoveAllSingle(x: char, c: char)
    ensures RemoveAll([x], c) == if x == c then "" else [x]
  {
    assert [x][1..] == "";
  }

  lemma {:induction false} RemoveAllAbsent(s: string, c: char)
    requires c !in s
    ensures RemoveAll(s, c) == s
  {
    if |s| > 0 {
      assert c !in s[1..];
      RemoveAllAbsent(s[1..], c);
    }
  }

  /** The first index at or after `from` where `pat` occurs in `s`. */
  function IndexOfFrom(s: string, pat: string, from: nat): (r: Option<nat>)
    decreases |s| - from
    ensures r.Some? ==> from <= r.value && OccursAt(s, pat, r.value)
    ensures r.Some? ==> forall j :: from <= j < r.value ==> !OccursAt(s, pat, j)
    ensures r.None? ==> forall j :: from <= j ==> !OccursAt(s, pat, j)
  {
    if from + |pat| > |s| then None
    else if s[from..from + |pat|] == pat then Some(from)
    else IndexOfFrom(s, pat, from + 1)
  }

  /** `String.prototype.indexOf`, or `search` with a regular expression that
      is a plain literal: the first occurrence, if any. */
  function IndexOf(s: string, pat: string): (r: Option<nat>)
    ensures r.Some? ==> OccursAt(s, pat, r.value)
    ensures r.Some? ==> forall j :: 0 <= j < r.value ==> !OccursAt(s, pat, j)
    ensures r.None? ==> forall j :: 0 <= j ==> !OccursAt(s, pat, j)
  {
    IndexOfFrom(s, pat, 0)
  }

  /** GetSubstitution for a match without capture groups: in a replacement
      string `$$` stands for `$`, `$&` for the matched text, `` $` `` for the
      text before the match and `$'` for the text after it; any other `$` is
      literal. */
  function Substitute(replacement: string, matched: string, before: string, after: string): string
  {
    if |replacement| == 0 then ""
    else if replacement[0] == '$' && |replacement| >= 2 && replacement[1] in "$&`'" then
      var expansion :=
        if replacement[1] == '$' then "$"
        else if replacement[1] == '&' then matched
        else if replacement[1] == '`' then before
        else after;
      expansion + Substitute(replacement[2..], matched, before, after)
    else [replacement[0]] + Substitute(replacement[1..], matched, before, after)
  }

  /** No `$` of `r` starts one of the patterns Substitute expands. */
  predicate LiteralReplacement(r: string) {
    forall i :: 0 <= i < |r| - 1 && r[i] == '$' ==> r[i + 1] !in "$&`'"
  }

  /** A replacement without expandable patterns is inserted verbatim. */
  lemma {:induction false} SubstituteLiteral(replacement: string, matched: string, before: string, after: string)
    requires LiteralReplacement(replacement)
    ensures Substitute(replacement, matched, before, after) == replacement
  {
    if |replacement| > 0 {
      var rest := replacement[1..];
      assert LiteralReplacement(rest) by {
        forall i | 0 <= i < |rest| - 1 && rest[i] == '$' ensures rest[i + 1] !in "$&`'" {
          assert rest[i] == replacement[i + 1] && rest[i + 1] == replacement[i + 2];
        }
      }
      SubstituteLiteral(rest, matched, before, after);
    }
  }

  /** `s.replace(pat, replacement)` where `pat` is a string or a regular
      expression without special characters or flags: only the FIRST
      occurrence is replaced, and the replacement string is expanded by
      Substitute. */
  function ReplaceFirst(s: string, pat: string, replacement: string): string
  {
    match IndexOf(s, pat)
    case None => s
    case Some(i) =>
      s[..i] + Substitute(replacement, pat, s[..i], s[i + |pat|..]) + s[i + |pat|..]
  }

  /** With a replacement that has no expandable pattern, the first
      occurrence of `pat` is replaced by the replacement verbatim and
      everything else is kept; a string in which `pat` does not occur is
      returned unchanged. */
  lemma ReplaceFirstLiteral(s: string, pat: string, replacement: string)
    requires LiteralReplacement(replacement)
    ensures IndexOf(s, pat).None? ==> ReplaceFirst(s, pat, replacement) == s
    ensures IndexOf(s, pat).Some? ==>
      var i := IndexOf(s, pat).value;
      ReplaceFirst(s, pat, replacement) == s[..i] + replacement + s[i + |pat|..]
  {
    if IndexOf(s, pat).Some? {
      var i := IndexOf(s, pat).value;
      SubstituteLiteral(replacement, pat, s[..i], s[i + |pat|..]);
    }
  }

  /** A character found in no part and not in the separator is not in the
      joined string. */
  lemma {:induction false} JoinExcludes(parts: seq<string>, sep: string, c: char)
    requires c !in sep
    requires forall i :: 0 <= i < |parts| ==> c !in parts[i]
    ensures c !in Join(parts, sep)
  {
    if |parts| > 1 {
      JoinExcludes(parts[1..], sep, c);
    }
  }

  /** Every `$` of `s` is followed, inside `s`, by a character that starts
      no replacement pattern. Unlike LiteralReplacement this survives
      concatenation, since no `$` waits at the end for the next piece. */
  predicate ClosedLiteral(s: string) {
    forall i :: 0 <= i < |s| && s[i] == '$' ==> i + 1 < |s| && s[i + 1] !in "$&`'"
  }

  lemma ClosedLiteralConcat(a: string, b: string)
    requires ClosedLiteral(a) && ClosedLiteral(b)
    ensures ClosedLiteral(a + b)
  {
    var s := a + b;
    forall i | 0 <= i < |s| && s[i] == '$' ensures i + 1 < |s| && s[i + 1] !in "$&`'" {
      if i < |a| {
        assert s[i] == a[i] && s[i + 1] == a[i + 1];
      } else {
        assert s[i] == b[i - |a|] && s[i + 1] == b[i + 1 - |a|];
      }
    }
  }

  /** Joining closed pieces with a closed separator gives a closed string. */
  lemma {:induction false} ClosedLiteralJoin(parts: seq<string>, sep: string)
    requires ClosedLiteral(sep)
    requires forall k :: 0 <= k < |parts| ==> ClosedLiteral(parts[k])
    ensures ClosedLiteral(Join(parts, sep))
  {
    if |parts| > 1 {
      ClosedLiteralJoin(parts[1..], sep);
      ClosedLiteralConcat(parts[0], sep);
      ClosedLiteralConcat(parts[0] + sep, Join(parts[1..], sep));
    }
  }

  // -------------------------------------------------------------- sequences

  predicate Distinct<T(==)>(s: seq<T>) {
    forall i, j :: 0 <= i < j < |s| ==> s[i] != s[j]
  }

  /** The index of the first occurrence of `x` in `s`. */
  function FirstIndex<T(==)>(s: seq<T>, x: T): (k: nat)
    requires x in s
    ensures k < |s| && s[k] == x && x !in s[..k]
  {
    if s[0] == x then 0 else 1 + FirstIndex(s[1..], x)
  }

  /** lodash `uniq`: each element once, at the place of its first occurrence. */
  function Uniq<T(==)>(s: seq<T>): seq<T>
  {
    if |s| == 0 then []
    else
      var prior := Uniq(s[..|s| - 1]);
      if s[|s| - 1] in prior then prior else prior + [s[|s| - 1]]
  }

  /** uniq keeps exactly the elements of its input, each once, ordered by
      first occurrence. */
  lemma {:induction false} UniqSpec<T>(s: seq<T>)
    ensures var r := Uniq(s);
      && (forall i :: 0 <= i < |r| ==> r[i] in s)
      && (forall i :: 0 <= i < |s| ==> s[i] in r)
      && Distinct(r)
      && (forall i, j :: 0 <= i < j < |r| ==> FirstIndex(s, r[i]) < FirstIndex(s, r[j]))
  {
    if |s| > 0 {
      var init := s[..|s| - 1];
      UniqSpec(init);
      UniqStep(s, init, Uniq(init));
    }
  }

  /** The inductive step of Uniq: appending one element to a prefix whose
      uniq is `prior`. */
  lemma UniqStep<T>(s: seq<T>, init: seq<T>, prior: seq<T>)
    requires |s| > 0 && init == s[..|s| - 1]
    requires forall i :: 0 <= i < |prior| ==> prior[i] in init
    requires forall i :: 0 <= i < |init| ==> init[i] in prior
    requires Distinct(prior)
    requires forall i, j :: 0 <= i < j < |prior| ==> FirstIndex(init, prior[i]) < FirstIndex(init, prior[j])
    ensures var r := if s[|s| - 1] in prior then prior else prior + [s[|s| - 1]];
      && (forall i :: 0 <= i < |r| ==> r[i] in s)
      && (forall i :: 0 <= i < |s| ==> s[i] in r)
      && Distinct(r)
      && (forall i, j :: 0 <= i < j < |r| ==> FirstIndex(s, r[i]) < FirstIndex(s, r[j]))
  {
    UniqStepMembers(s, init, prior);
    UniqStepOrder(s, init, prior);
    var last := s[|s| - 1];
    if last !in prior {
      var r := prior + [last];
      forall i, j | 0 <= i < j < |r| ensures r[i] != r[j] {
        assert r[i] == prior[i];
      }
    }
  }

  lemma UniqStepMembers<T>(s: seq<T>, init: seq<T>, prior: seq<T>)
    requires |s| > 0 && init == s[..|s| - 1]
    requires forall i :: 0 <= i < |prior| ==> prior[i] in init
    requires forall i :: 0 <= i < |init| ==> init[i] in prior
    ensures var r := if s[|s| - 1] in prior then prior else prior + [s[|s| - 1]];
      && (forall i :: 0 <= i < |r| ==> r[i] in s)
      && (forall i :: 0 <= i < |s| ==> s[i] in r)
  {
    PriorInWhole(s, init, prior);
    WholeInExtended(s, init, prior);
  }

  lemma PriorInWhole<T>(s: seq<T>, init: seq<T>, prior: seq<T>)
    requires |s| > 0 && init == s[..|s| - 1]
    requires forall i :: 0 <= i < |prior| ==> prior[i] in init
    ensures forall i :: 0 <= i < |prior| ==> prior[i] in s
  {
    forall i | 0 <= i < |prior| ensures prior[i] in s {
      var j :| 0 <= j < |init| && init[j] == prior[i];
      assert s[j] == init[j];
    }
  }

  lemma WholeInExtended<T>(s: seq<T>, init: seq<T>, prior: seq<T>)
    requires |s| > 0 && init == s[..|s| - 1]
    requires forall i :: 0 <= i < |init| ==> init[i] in prior
    ensures forall i :: 0 <= i < |s| - 1 ==> s[i] in prior
  {
    forall i | 0 <= i < |s| - 1 ensures s[i] in prior {
      assert s[i] == init[i];
    }
  }

  lemma UniqStepOrder<T>(s: seq<T>, init: seq<T>, prior: seq<T>)
    requires |s| > 0 && init == s[..|s| - 1]
    requires forall i :: 0 <= i < |prior| ==> prior[i] in init
    requires forall i :: 0 <= i < |init| ==> init[i] in prior
    requires forall i, j :: 0 <= i < j < |prior| ==> FirstIndex(init, prior[i]) < FirstIndex(init, prior[j])
    ensures var r := if s[|s| - 1] in prior then prior else prior + [s[|s| - 1]];
      forall i, j :: 0 <= i < j < |r| ==> FirstIndex(s, r[i]) < FirstIndex(s, r[j])
  {
    var last := s[|s| - 1];
    forall i | 0 <= i < |prior| ensures FirstIndex(s, prior[i]) == FirstIndex(init, prior[i]) < |init| {
      FirstIndexOfPrefix(s, init, prior[i]);
    }
    if last !in prior {
      var r := prior + [last];
      assert FirstIndex(s, last) == |s| - 1 by {
        assert last !in init;
        assert s[..|s| - 1] == init;
      }
      forall i, j | 0 <= i < j < |r| ensures FirstIndex(s, r[i]) < FirstIndex(s, r[j]) {
        assert r[i] == prior[i];
        if j < |r| - 1 {
          assert r[j] == prior[j];
        }
      }
    }
  }

  /** uniq leaves a sequence without repetitions as it is. */
  lemma {:induction false} UniqOfDistinct<T>(s: seq<T>)
    requires Distinct(s)
    ensures Uniq(s) == s
  {
    if |s| > 0 {
      var init, last := s[..|s| - 1], s[|s| - 1];
      UniqOfDistinct(init);
      assert last !in init by {
        forall i | 0 <= i < |init| ensures init[i] != last {
          assert init[i] == s[i];
        }
      }
      assert Uniq(s) == Uniq(init) + [last];
      assert init + [last] == s;
    }
  }

  /** uniq of a sequence extended by one element. */
  lemma UniqSnoc<T>(s: seq<T>, k: T)
    ensures Uniq(s + [k]) == if k in Uniq(s) then Uniq(s) else Uniq(s) + [k]
  {
    assert (s + [k])[..|s|] == s;
  }

  /** Deduplicating a prefix first changes nothing:
      `uniq(uniq(a) ++ b) == uniq(a ++ b)`. */
  lemma {:induction false} UniqOfUniqPrefix<T>(a: seq<T>, b: seq<T>)
    ensures Uniq(Uniq(a) + b) == Uniq(a + b)
    decreases |b|, 1
  {
    if |b| == 0 {
      assert Uniq(a) + b == Uniq(a) && a + b == a;
      UniqSpec(a);
      UniqOfDistinct(Uniq(a));
    } else {
      var b', k := b[..|b| - 1], b[|b| - 1];
      assert b == b' + [k];
      UniqOfUniqPrefixStep(a, b', k);
    }
  }

  lemma {:induction false} UniqOfUniqPrefixStep<T>(a: seq<T>, b': seq<T>, k: T)
    ensures Uniq(Uniq(a) + (b' + [k])) == Uniq(a + (b' + [k]))
    decreases |b'| + 1, 0
  {
    UniqOfUniqPrefix(a, b');
    assert Uniq(a) + (b' + [k]) == (Uniq(a) + b') + [k];
    assert a + (b' + [k]) == (a + b') + [k];
    UniqSnoc(Uniq(a) + b', k);
    UniqSnoc(a + b', k);
  }

  lemma {:induction false} FirstIndexOfPrefix<T>(s: seq<T>, init: seq<T>, x: T)
    requires init <= s && x in init
    ensures x in s && FirstIndex(s, x) == FirstIndex(init, x)
  {
    assert s[0] == init[0];
    if s[0] != x {
      FirstIndexOfPrefix(s[1..], init[1..], x);
    }
  }

  // ----------------------------------------------------- insertion-ordered Map

  /** A JavaScript `Map` as its entries in insertion order. */
  type MapEntries<V> = seq<(string, V)>

  function Keys<V>(m: MapEntries<V>): (ks: seq<string>)
    ensures |ks| == |m|
    ensures forall i :: 0 <= i < |m| ==> ks[i] == m[i].0
  {
    if |m| == 0 then [] else [m[0].0] + Keys(m[1..])
  }

  /** `Map.prototype.get`. */
  function Get<V>(m: MapEntries<V>, k: string): (r: Option<V>)
    ensures r.Some? <==> k in Keys(m)
  {
    if |m| == 0 then None
    else if m[0].0 == k then Some(m[0].1)
    else Get(m[1..], k)
  }

  lemma KeysOfPrefix<V>(m: MapEntries<V>, i: nat)
    requires i < |m|
    ensures Keys(m[..i + 1]) == Keys(m[..i]) + [m[i].0]
  {
  }

  /** Looking up the key of the i-th entry of a map without repeated keys
      gives that entry's value. */
  lemma {:induction false} GetEntry<V>(m: MapEntries<V>, i: nat)
    requires Distinct(Keys(m)) && i < |m|
    ensures Get(m, m[i].0) == Some(m[i].1)
  {
    if i > 0 {
      assert Keys(m)[0] != Keys(m)[i];
      assert Keys(m[1..]) == Keys(m)[1..];
      GetEntry(m[1..], i - 1);
    }
  }

  /** Looking up a key in a map extended by one entry at the end. */
  lemma {:induction false} GetSnoc<V>(m: MapEntries<V>, k: string, v: V, key: string)
    ensures Get(m + [(k, v)], key) == if key in Keys(m) then Get(m, key) else if key == k then Some(v) else None
  {
    if |m| > 0 {
      assert (m + [(k, v)])[1..] == m[1..] + [(k, v)];
      assert Keys(m) == [m[0].0] + Keys(m[1..]);
      GetSnoc(m[1..], k, v, key);
    }
  }

  /** `Map.prototype.set`: an existing key keeps its position and takes the
      new value; a new key is appended. */
  function Set<V>(m: MapEntries<V>, k: string, v: V): (r: MapEntries<V>)
    ensures k in Keys(m) ==> Keys(r) == Keys(m)
    ensures k !in Keys(m) ==> Keys(r) == Keys(m) + [k]
    ensures Get(r, k) == Some(v)
    ensures forall k' :: k' != k ==> Get(r, k') == Get(m, k')
  {
    if |m| == 0 then [(k, v)]
    else if m[0].0 == k then [(k, v)] + m[1..]
    else
      var rest := Set(m[1..], k, v);
      SetCons(m, rest, k, v);
      [m[0]] + rest
  }

  /** Set's contract carries over from the tail to the whole map when the
      first entry's key is not the one set. */
  lemma SetCons<V>(m: MapEntries<V>, rest: MapEntries<V>, k: string, v: V)
    requires |m| > 0 && m[0].0 != k
    requires k in Keys(m[1..]) ==> Keys(rest) == Keys(m[1..])
    requires k !in Keys(m[1..]) ==> Keys(rest) == Keys(m[1..]) + [k]
    requires Get(rest, k) == Some(v)
    requires forall k' :: k' != k ==> Get(rest, k') == Get(m[1..], k')
    ensures var r := [m[0]] + rest;
      && (k in Keys(m) ==> Keys(r) == Keys(m))
      && (k !in Keys(m) ==> Keys(r) == Keys(m) + [k])
      && Get(r, k) == Some(v)
      && forall k' :: k' != k ==> Get(r, k') == Get(m, k')
  {
    SetConsKeys(m, rest, k);
    SetConsGet(m, rest, k, v);
  }

  lemma SetConsKeys<V>(m: MapEntries<V>, rest: MapEntries<V>, k: string)
    requires |m| > 0 && m[0].0 != k
    requires k in Keys(m[1..]) ==> Keys(rest) == Keys(m[1..])
    requires k !in Keys(m[1..]) ==> Keys(rest) == Keys(m[1..]) + [k]
    ensures k in Keys(m) ==> Keys([m[0]] + rest) == Keys(m)
    ensures k !in Keys(m) ==> Keys([m[0]] + rest) == Keys(m) + [k]
  {
    ConsKeys(m[0], m[1..]);
    ConsKeys(m[0], rest);
    assert m == [m[0]] + m[1..];
    assert k in Keys(m) <==> k in Keys(m[1..]);
    if k !in Keys(m) {
      assert [m[0].0] + (Keys(m[1..]) + [k]) == [m[0].0] + Keys(m[1..]) + [k];
    }
  }

  lemma SetConsGet<V>(m: MapEntries<V>, rest: MapEntries<V>, k: string, v: V)
    requires |m| > 0 && m[0].0 != k
    requires Get(rest, k) == Some(v)
    requires forall k' :: k' != k ==> Get(rest, k') == Get(m[1..], k')
    ensures Get([m[0]] + rest, k) == Some(v)
    ensures forall k' :: k' != k ==> Get([m[0]] + rest, k') == Get(m, k')
  {
    ConsGet(m[0], rest, k);
    forall k' | k' != k ensures Get([m[0]] + rest, k') == Get(m, k') {
      ConsGet(m[0], rest, k');
      ConsGet(m[0], m[1..], k');
      assert m == [m[0]] + m[1..];
    }
  }

  lemma ConsKeys<V>(e: (string, V), m: MapEntries<V>)
    ensures Keys([e] + m) == [e.0] + Keys(m)
  {
    assert ([e] + m)[1..] == m;
  }

  lemma ConsGet<V>(e: (string, V), m: MapEntries<V>, k: string)
    ensures Get([e] + m, k) == if k == e.0 then Some(e.1) else Get(m, k)
  {
    assert ([e] + m)[1..] == m;
  }

  /** The keys of a map built by Set alone never repeat. */
  lemma {:induction false} SetKeepsKeysDistinct<V>(m: MapEntries<V>, k: string, v: V)
    requires Distinct(Keys(m))
    ensures Distinct(Keys(Set(m, k, v)))
  {
    var r := Keys(Set(m, k, v));
    if k !in Keys(m) {
      forall i, j | 0 <= i < j < |r| ensures r[i] != r[j] {
        if j == |r| - 1 {
          assert r[i] == Keys(m)[i];
        }
      }
    }
  }

  /** lodash `extend` (`assignIn`) of one source object into a target:
      each source entry is assigned in turn. */
  function Extend<V>(target: MapEntries<V>, source: MapEntries<V>): MapEntries<V>
    decreases |source|
  {
    if |source| == 0 then target
    else Extend(Set(target, source[0].0, source[0].1), source[1..])
  }

  /** After `extend`, a key of the source holds the source's value and any
      other key keeps the target's: on a clash the source wins. */
  lemma {:induction false} ExtendGet<V>(target: MapEntries<V>, source: MapEntries<V>, k: string)
    requires Distinct(Keys(source))
    ensures Get(Extend(target, source), k) == if k in Keys(source) then Get(source, k) else Get(target, k)
    decreases |source|
  {
    if |source| > 0 {
      var s' := source[1..];
      assert Keys(source) == [source[0].0] + Keys(s');
      ExtendGet(Set(target, source[0].0, source[0].1), s', k);
    }
  }

  /** The keys after `extend` are the target's keys followed by the source's
      new ones, in the source's order. */
  lemma {:induction false} ExtendKeys<V>(target: MapEntries<V>, source: MapEntries<V>)
    requires Distinct(Keys(target))
    ensures Keys(Extend(target, source)) == Uniq(Keys(target) + Keys(source))
    decreases |source|
  {
    if |source| == 0 {
      assert Keys(target) + Keys(source) == Keys(target);
      UniqOfDistinct(Keys(target));
    } else {
      var k, s' := source[0].0, source[1..];
      var kt, ks := Keys(target), Keys(s');
      assert Keys(source) == [k] + ks;
      assert kt + [k] + ks == kt + Keys(source);
      var next := Set(target, k, source[0].1);
      SetKeepsKeysDistinct(target, k, source[0].1);
      ExtendKeys(next, s');
      UniqOfDistinct(kt);
      UniqSnoc(kt, k);
      assert Keys(next) == Uniq(kt + [k]);
      UniqOfUniqPrefix(kt + [k], ks);
    }
  }
}
