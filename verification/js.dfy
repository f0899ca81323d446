/**
 * The handful of JavaScript built-ins the HTTP evaluator relies on, written
 * as pure functions over Dafny values: optional values, the strict equality
 * of the few value kinds it compares, string coercion of an absent value,
 * ASCII case mapping, `split` on a one-character separator, and substring
 * search.
 */
module Js {

  /** One octet of a Node `Buffer`. */
  newtype byte = x: int | 0 <= x < 256

  /** A property that may be `undefined`. */
  datatype Option<+T> = None | Some(value: T)

  /** The outcome of evaluating an expression that may throw. */
  datatype Completion<+T> = Normal(value: T) | Throw(error: string)

  /**
   * The JavaScript values the modelled code compares with `===` or calls:
   * `Func` is a function of no arguments, known by the value it returns.
   */
  datatype Value = Undefined | Num(n: int) | Str(s: string) | Func(result: Value)

  /** `a === b`: values of different kinds are never strictly equal. */
  predicate StrictEquals(a: Value, b: Value)
  {
    a == b
  }

  /** `callee()`: a function returns its value; calling anything else throws a TypeError. */
  function Call(callee: Value): (c: Completion<Value>)
    ensures c.Normal? <==> callee.Func?
  {
    if callee.Func? then Normal(callee.result) else Throw("TypeError: callee is not a function")
  }

  /** `typeof v` for a property holding a string or nothing. */
  function TypeOf(v: Option<string>): string
  {
    if v.None? then "undefined" else "string"
  }

  /** String coercion, as `+` and `RegExp.prototype.test` apply it: `undefined` becomes the text "undefined". */
  function Coerce(v: Option<string>): string
  {
    if v.None? then "undefined" else v.value
  }

  // ---------------------------------------------------------------------------
  // Case mapping (ASCII letters only)
  // ---------------------------------------------------------------------------

  function LowerChar(c: char): char
  {
    if 'A' <= c <= 'Z' then (c as int + 32) as char else c
  }

  function UpperChar(c: char): char
  {
    if 'a' <= c <= 'z' then (c as int - 32) as char else c
  }

  /** `String.prototype.toLowerCase`, restricted to ASCII letters. */
  function ToLowerCase(s: string): string
  {
    seq(|s|, i requires 0 <= i < |s| => LowerChar(s[i]))
  }

  /** `String.prototype.toUpperCase`, restricted to ASCII letters. */
  function ToUpperCase(s: string): string
  {
    seq(|s|, i requires 0 <= i < |s| => UpperChar(s[i]))
  }

  /** Two names that are the same letter for letter once case is ignored. */
  predicate SameUpToCase(a: string, b: string)
  {
    |a| == |b| && forall i :: 0 <= i < |a| ==> LowerChar(a[i]) == LowerChar(b[i])
  }

  /** Lower-casing twice is lower-casing once. */
  lemma ToLowerCaseIdempotent(s: string)
    ensures ToLowerCase(ToLowerCase(s)) == ToLowerCase(s)
  {
  }

  /** Ignoring case is exactly comparing the lower-cased forms. */
  lemma SameUpToCaseIsLowerCaseEquality(a: string, b: string)
    ensures SameUpToCase(a, b) <==> ToLowerCase(a) == ToLowerCase(b)
  {
    if ToLowerCase(a) == ToLowerCase(b) {
      forall i | 0 <= i < |a|
        ensures LowerChar(a[i]) == LowerChar(b[i])
      {
        assert ToLowerCase(a)[i] == ToLowerCase(b)[i];
      }
    }
  }

  // ---------------------------------------------------------------------------
  // split / join on a single separator character
  // ---------------------------------------------------------------------------

  /**
   * `s.split(sep)` for a separator that matches exactly one character: the
   * pieces between separators, with no trimming and with empty pieces kept
   * (so "" gives [""] and "a," gives ["a", ""]).
   */
  function Split(s: string, sep: char): (parts: seq<string>)
    ensures |parts| >= 1
    ensures forall i :: 0 <= i < |parts| ==> sep !in parts[i]
  {
    if |s| == 0 then [""]
    else
      var rest := Split(s[1..], sep);
      if s[0] == sep then [""] + rest
      else [[s[0]] + rest[0]] + rest[1..]
  }

  /** `parts.join(sep)`. */
  function Join(parts: seq<string>, sep: char): string
    requires |parts| >= 1
  {
    if |parts| == 1 then parts[0] else parts[0] + [sep] + Join(parts[1..], sep)
  }

  /** Joining the pieces back with the separator restores the string. */
  lemma {:induction false} JoinSplit(s: string, sep: char)
    ensures Join(Split(s, sep), sep) == s
  {
    if |s| > 0 {
      var rest := Split(s[1..], sep);
      JoinSplit(s[1..], sep);
      if s[0] == sep {
        assert ([""] + rest)[1..] == rest;
      } else if |rest| > 1 {
        assert ([[s[0]] + rest[0]] + rest[1..])[1..] == rest[1..];
        assert Join(rest, sep) == rest[0] + [sep] + Join(rest[1..], sep);
        assert s == [s[0]] + s[1..];
      } else {
        assert s == [s[0]] + s[1..];
      }
    }
  }

  /** A string without the separator is split into itself alone. */
  lemma {:induction false} SplitWithoutSeparator(s: string, sep: char)
    requires sep !in s
    ensures Split(s, sep) == [s]
  {
    if |s| > 0 {
      SplitWithoutSeparator(s[1..], sep);
      assert s == [s[0]] + s[1..];
    }
  }

  /** A separator-free piece followed by the separator splits off as the first piece. */
  lemma {:induction false} SplitAfterPiece(t: string, sep: char, s: string)
    requires sep !in t
    ensures Split(t + [sep] + s, sep) == [t] + Split(s, sep)
  {
    if |t| == 0 {
      assert t + [sep] + s == [sep] + s;
      assert ([sep] + s)[1..] == s;
    } else {
      var u := t + [sep] + s;
      assert u[1..] == t[1..] + [sep] + s;
      assert u[0] == t[0];
      SplitAfterPiece(t[1..], sep, s);
      assert [t[0]] + t[1..] == t;
    }
  }

  /** Splitting a join of separator-free pieces gives the pieces back. */
  lemma {:induction false} SplitJoin(parts: seq<string>, sep: char)
    requires |parts| >= 1
    requires forall i :: 0 <= i < |parts| ==> sep !in parts[i]
    ensures Split(Join(parts, sep), sep) == parts
  {
    if |parts| == 1 {
      SplitWithoutSeparator(parts[0], sep);
    } else {
      SplitJoin(parts[1..], sep);
      SplitAfterPiece(parts[0], sep, Join(parts[1..], sep));
      assert [parts[0]] + parts[1..] == parts;
    }
  }

  // ---------------------------------------------------------------------------
  // Substring search and the split at the first occurrence of a character
  // ---------------------------------------------------------------------------

  predicate StartsWith(s: string, prefix: string)
  {
    |prefix| <= |s| && s[..|prefix|] == prefix
  }

  /** `s` contains `t` as a contiguous piece somewhere (an unanchored literal match). */
  predicate Includes(s: string, t: string)
    decreases |s|
  {
    StartsWith(s, t) || (|s| > 0 && Includes(s[1..], t))
  }

  /** `t` occurs in `s` starting at index `i`. */
  predicate OccursAt(s: string, t: string, i: int)
  {
    0 <= i && i + |t| <= |s| && s[i..i + |t|] == t
  }

  /** An occurrence at any position is found by the search. */
  lemma {:induction false} IncludesAt(s: string, t: string, i: int)
    requires OccursAt(s, t, i)
    ensures Includes(s, t)
  {
    if i > 0 {
      assert s[1..][i - 1..i - 1 + |t|] == s[i..i + |t|];
      IncludesAt(s[1..], t, i - 1);
    }
  }

  /** The search succeeds exactly when there is an occurrence somewhere. */
  lemma {:induction false} IncludesIffOccurs(s: string, t: string)
    ensures Includes(s, t) <==> exists i :: OccursAt(s, t, i)
  {
    if exists i :: OccursAt(s, t, i) {
      var i :| OccursAt(s, t, i);
      IncludesAt(s, t, i);
    }
    if Includes(s, t) {
      if StartsWith(s, t) {
        assert OccursAt(s, t, 0);
      } else {
        IncludesIffOccurs(s[1..], t);
        var i :| OccursAt(s[1..], t, i);
        assert s[i + 1..i + 1 + |t|] == s[1..][i..i + |t|];
        assert OccursAt(s, t, i + 1);
      }
    }
  }

  /** A piece with a character the string lacks does not occur in it. */
  lemma MissingCharNotIncluded(s: string, t: string, j: int)
    requires 0 <= j < |t| && t[j] !in s
    ensures !Includes(s, t)
  {
    IncludesIffOccurs(s, t);
  }

  /** The text before the first `c` (all of `s` when there is none). */
  function Before(s: string, c: char): string
  {
    if |s| == 0 || s[0] == c then "" else [s[0]] + Before(s[1..], c)
  }

  /** The text after the first `c` (empty when there is none). */
  function After(s: string, c: char): string
  {
    if |s| == 0 then "" else if s[0] == c then s[1..] else After(s[1..], c)
  }

  /**
   * A piece with an upper-case letter that the string holds in neither case
   * does not occur in the string's upper-cased form.
   */
  lemma MissingLetterNotIncludedUpper(s: string, t: string, j: int)
    requires 0 <= j < |t| && 'A' <= t[j] <= 'Z'
    requires t[j] !in s && LowerChar(t[j]) !in s
    ensures !Includes(ToUpperCase(s), t)
  {
    var u := ToUpperCase(s);
    forall k | 0 <= k < |u|
      ensures u[k] != t[j]
    {
      assert s[k] in s;
    }
    MissingCharNotIncluded(u, t, j);
  }

  /** A string without `c` precedes its own (absent) first `c` entirely. */
  lemma {:induction false} BeforeWithout(p: string, c: char)
    requires c !in p
    ensures Before(p, c) == p
  {
    if |p| > 0 {
      BeforeWithout(p[1..], c);
      assert [p[0]] + p[1..] == p;
    }
  }

  /** Appending `c` and more to a `c`-free string: what precedes is the string, what follows is the rest. */
  lemma {:induction false} FirstOccurrenceAppended(p: string, c: char, e: string)
    requires c !in p
    ensures Before(p + [c] + e, c) == p
    ensures After(p + [c] + e, c) == e
  {
    if |p| == 0 {
      assert p + [c] + e == [c] + e;
      assert ([c] + e)[1..] == e;
    } else {
      assert (p + [c] + e)[1..] == p[1..] + [c] + e;
      FirstOccurrenceAppended(p[1..], c, e);
      assert [p[0]] + p[1..] == p;
    }
  }

  /** Appending to a string that already holds `c` leaves what precedes the first `c` alone. */
  lemma {:induction false} FirstOccurrenceKept(p: string, c: char, x: string)
    requires c in p
    ensures Before(p + x, c) == Before(p, c)
    ensures After(p + x, c) == After(p, c) + x
  {
    assert (p + x)[0] == p[0];
    if p[0] == c {
      assert (p + x)[1..] == p[1..] + x;
    } else {
      assert (p + x)[1..] == p[1..] + x;
      FirstOccurrenceKept(p[1..], c, x);
    }
  }
}
