/**
 * The few pieces of the JavaScript runtime that the chat code leans on:
 * values that may be null or undefined, the default comparison of
 * `Array.prototype.sort`, `join`, `String.prototype.split` on one
 * character and `String.prototype.trim`.
 */
module JsRuntime {

  datatype Option<T> = None | Some(value: T)

  /** A value as it reaches `sort` and `join` in the chat code: a string, `null` or `undefined`. */
  datatype JsValue = JsString(s: string) | JsNull | JsUndefined

  /** `String(v)`, the key the default comparator of `sort` compares. */
  function ToJsString(v: JsValue): string
  {
    match v
    case JsString(s) => s
    case JsNull => "null"
    case JsUndefined => "undefined"
  }

  /** How `join` renders one element: `null` and `undefined` become the empty string. */
  function JoinElement(v: JsValue): string
  {
    if v.JsString? then v.s else ""
  }

  /** An optional string as JavaScript holds it: absent is `undefined`. */
  function FromOption(o: Option<string>): JsValue
  {
    if o.Some? then JsString(o.value) else JsUndefined
  }

  // ---------------------------------------------------------------------
  // String order

  /** Lexicographic order on strings, character by character; a proper prefix comes first. */
  predicate LexLess(a: string, b: string)
    decreases |a|
  {
    if |a| == 0 then |b| > 0
    else if |b| == 0 then false
    else if a[0] != b[0] then a[0] < b[0]
    else LexLess(a[1..], b[1..])
  }

  lemma {:induction false} LexLessIrreflexive(a: string)
    ensures !LexLess(a, a)
    decreases |a|
  {
    if |a| > 0 {
      LexLessIrreflexive(a[1..]);
    }
  }

  lemma {:induction false} LexLessAsymmetric(a: string, b: string)
    ensures LexLess(a, b) ==> !LexLess(b, a)
    decreases |a|
  {
    if |a| > 0 && |b| > 0 && a[0] == b[0] {
      LexLessAsymmetric(a[1..], b[1..]);
    }
  }

  lemma {:induction false} LexLessTotal(a: string, b: string)
    ensures a != b ==> LexLess(a, b) || LexLess(b, a)
    decreases |a|
  {
    if |a| > 0 && |b| > 0 && a[0] == b[0] {
      LexLessTotal(a[1..], b[1..]);
      if a[1..] == b[1..] {
        assert a == [a[0]] + a[1..] && b == [b[0]] + b[1..];
      }
    }
  }

  lemma {:induction false} LexLessTransitive(a: string, b: string, c: string)
    ensures LexLess(a, b) && LexLess(b, c) ==> LexLess(a, c)
    decreases |a|
  {
    if |a| > 0 && |b| > 0 && |c| > 0 && a[0] == b[0] && b[0] == c[0] {
      LexLessTransitive(a[1..], b[1..], c[1..]);
    }
  }

  // ---------------------------------------------------------------------
  // [a, b].sort() and join

  /**
   * `x` may stand before `y` in the output of `sort()` without a comparator:
   * `undefined` goes last, everything else is compared by `String(...)`.
   */
  predicate InSortOrder(x: JsValue, y: JsValue)
  {
    y.JsUndefined? || (!x.JsUndefined? && !LexLess(ToJsString(y), ToJsString(x)))
  }

  /** `[a, b].sort()`: a sorted, stable permutation of the two elements. */
  function SortPair(a: JsValue, b: JsValue): (r: seq<JsValue>)
    ensures r == [a, b] || r == [b, a]
    ensures InSortOrder(r[0], r[1])
    ensures InSortOrder(a, b) ==> r == [a, b]
  {
    if a.JsUndefined? then [b, a]
    else if b.JsUndefined? then [a, b]
    else if LexLess(ToJsString(b), ToJsString(a)) then
      LexLessAsymmetric(ToJsString(b), ToJsString(a));
      [b, a]
    else [a, b]
  }

  /** `parts.join(sep)` on strings. */
  function JoinStrings(parts: seq<string>, sep: string): string
  {
    if |parts| == 0 then ""
    else if |parts| == 1 then parts[0]
    else parts[0] + sep + JoinStrings(parts[1..], sep)
  }

  /** Each element as `join` renders it. */
  function RenderElements(vs: seq<JsValue>): (r: seq<string>)
    ensures |r| == |vs|
    ensures forall k :: 0 <= k < |r| ==> r[k] == JoinElement(vs[k])
  {
    if vs == [] then [] else [JoinElement(vs[0])] + RenderElements(vs[1..])
  }

  /** `vs.join(sep)` on an array of strings, nulls and undefineds. */
  function ArrayJoin(vs: seq<JsValue>, sep: string): string
  {
    JoinStrings(RenderElements(vs), sep)
  }

  /** A two-element array joins as its two renderings around the separator. */
  lemma PairJoin(a: JsValue, b: JsValue, sep: string)
    ensures ArrayJoin([a, b], sep) == JoinElement(a) + sep + JoinElement(b)
  {
    assert [a, b][1..] == [b];
    assert RenderElements([b]) == [JoinElement(b)] by { assert [b][1..] == []; }
    var parts := RenderElements([a, b]);
    assert parts == [JoinElement(a), JoinElement(b)];
    assert parts[1..] == [JoinElement(b)];
    assert JoinStrings(parts, sep) == parts[0] + sep + JoinStrings(parts[1..], sep);
  }

  // ---------------------------------------------------------------------
  // split on one character

  /** `s.split(sep)` for a one-character separator; there is always at least one part. */
  function Split(s: string, sep: char): (parts: seq<string>)
    ensures |parts| >= 1
    decreases |s|
  {
    if |s| == 0 then [""]
    else if s[0] == sep then [""] + Split(s[1..], sep)
    else
      var rest := Split(s[1..], sep);
      [[s[0]] + rest[0]] + rest[1..]
  }

  /** Joining the parts with the separator gives back the string. */
  lemma {:induction false} SplitJoin(s: string, sep: char)
    ensures JoinStrings(Split(s, sep), [sep]) == s
    decreases |s|
  {
    if |s| > 0 {
      SplitJoin(s[1..], sep);
      var rest := Split(s[1..], sep);
      if s[0] == sep {
        assert ([""] + rest)[1..] == rest;
      } else {
        var parts := [[s[0]] + rest[0]] + rest[1..];
        assert parts[1..] == rest[1..];
        if |rest| == 1 {
          assert s == [s[0]] + s[1..];
        } else {
          assert rest[1..][..] == rest[1..];
          assert JoinStrings(rest, [sep]) == rest[0] + [sep] + JoinStrings(rest[1..], [sep]);
          assert s == [s[0]] + s[1..];
        }
      }
    }
  }

  /** No part contains the separator. */
  lemma {:induction false} SplitPartsFree(s: string, sep: char)
    ensures forall k :: 0 <= k < |Split(s, sep)| ==> sep !in Split(s, sep)[k]
    decreases |s|
  {
    if |s| > 0 {
      SplitPartsFree(s[1..], sep);
      var rest := Split(s[1..], sep);
      if s[0] != sep {
        assert sep !in rest[0];
        var parts := Split(s, sep);
        forall k | 0 <= k < |parts| ensures sep !in parts[k] {
          if k == 0 {
            assert parts[0] == [s[0]] + rest[0];
          } else {
            assert parts[k] == rest[k];
          }
        }
      } else {
        var parts := Split(s, sep);
        forall k | 0 <= k < |parts| ensures sep !in parts[k] {
          if k > 0 {
            assert parts[k] == rest[k - 1];
          }
        }
      }
    }
  }

  /** Without the separator there is exactly one part, the whole string. */
  lemma {:induction false} SplitWithoutSeparator(s: string, sep: char)
    requires sep !in s
    ensures Split(s, sep) == [s]
    decreases |s|
  {
    if |s| > 0 {
      assert sep !in s[1..] by {
        forall k | 0 <= k < |s[1..]| ensures s[1..][k] != sep { assert s[1..][k] == s[k + 1]; }
      }
      SplitWithoutSeparator(s[1..], sep);
      assert s == [s[0]] + s[1..];
    }
  }

  /** The first part ends at the first separator; the rest is the split of what follows it. */
  lemma {:induction false} SplitAtFirst(s: string, sep: char, i: nat)
    requires i < |s| && s[i] == sep && sep !in s[..i]
    ensures Split(s, sep) == [s[..i]] + Split(s[i + 1..], sep)
    decreases i
  {
    if i > 0 {
      assert s[0] in s[..i];
      assert sep !in s[1..][..i - 1] by {
        assert s[1..][..i - 1] == s[1..i];
        forall k | 0 <= k < i - 1 ensures s[1..i][k] != sep { assert s[1..i][k] == s[..i][k + 1]; }
      }
      SplitAtFirst(s[1..], sep, i - 1);
      assert s[1..][i..] == s[i + 1..];
      assert [s[0]] + s[1..][..i - 1] == s[..i];
    }
  }

  // ---------------------------------------------------------------------
  // trim

  /** The WhiteSpace and LineTerminator characters that `trim` removes. */
  predicate IsWhitespace(c: char)
  {
    || c == '\U{0009}' || c == '\U{000A}' || c == '\U{000B}' || c == '\U{000C}' || c == '\U{000D}'
    || c == '\U{0020}' || c == '\U{00A0}' || c == '\U{1680}'
    || ('\U{2000}' <= c <= '\U{200A}')
    || c == '\U{2028}' || c == '\U{2029}' || c == '\U{202F}' || c == '\U{205F}'
    || c == '\U{3000}' || c == '\U{FEFF}'
  }

  function TrimStart(s: string): (r: string)
    ensures |r| <= |s| && r == s[|s| - |r|..]
    ensures r != [] ==> !IsWhitespace(r[0])
    ensures forall k :: 0 <= k < |s| - |r| ==> IsWhitespace(s[k])
    decreases |s|
  {
    if |s| > 0 && IsWhitespace(s[0]) then TrimStart(s[1..]) else s
  }

  function TrimEnd(s: string): (r: string)
    ensures |r| <= |s| && r == s[..|r|]
    ensures r != [] ==> !IsWhitespace(r[|r| - 1])
    ensures forall k :: |r| <= k < |s| ==> IsWhitespace(s[k])
    decreases |s|
  {
    if |s| > 0 && IsWhitespace(s[|s| - 1]) then TrimEnd(s[..|s| - 1]) else s
  }

  /** `s.trim()`. */
  function Trim(s: string): string
  {
    TrimEnd(TrimStart(s))
  }

  /** `s.trim()` is truthy exactly when s holds a character that is not white space. */
  lemma {:induction false} TrimNonEmpty(s: string)
    ensures Trim(s) != "" <==> exists k :: 0 <= k < |s| && !IsWhitespace(s[k])
  {
    TrimStartAllWhite(s);
    TrimEndAllWhite(TrimStart(s));
    var t := TrimStart(s);
    if exists k :: 0 <= k < |s| && !IsWhitespace(s[k]) {
      var k :| 0 <= k < |s| && !IsWhitespace(s[k]);
      assert t != "";
      assert !IsWhitespace(t[0]);
    }
  }

  lemma {:induction false} TrimStartAllWhite(s: string)
    ensures TrimStart(s) == "" <==> forall k :: 0 <= k < |s| ==> IsWhitespace(s[k])
    decreases |s|
  {
    if |s| > 0 && IsWhitespace(s[0]) {
      TrimStartAllWhite(s[1..]);
      assert forall k :: 1 <= k < |s| ==> s[k] == s[1..][k - 1];
    }
  }

  lemma {:induction false} TrimEndAllWhite(s: string)
    ensures TrimEnd(s) == "" <==> forall k :: 0 <= k < |s| ==> IsWhitespace(s[k])
    decreases |s|
  {
    if |s| > 0 && IsWhitespace(s[|s| - 1]) {
      TrimEndAllWhite(s[..|s| - 1]);
      assert forall k :: 0 <= k < |s| - 1 ==> s[k] == s[..|s| - 1][k];
    }
  }
}
