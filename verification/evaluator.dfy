/**
 * The response-predicate surface of the HTTP evaluator: one captured
 * response (its header map, names lower-case as Node delivers them, and its
 * fully buffered body) and the boolean checks test code asks of it.
 */
module Evaluator {
  import opened Js

  /** A captured response: header name to raw header value, and the body bytes. */
  datatype Response = Response(headers: map<string, string>, body: seq<byte>)

  /** Node hands over header names already lower-cased. */
  predicate LowerCaseNames(r: Response)
  {
    forall k :: k in r.headers ==> ToLowerCase(k) == k
  }

  // ---------------------------------------------------------------------------
  // has_header / has_header_value
  // ---------------------------------------------------------------------------

  /** `has_header`: whether the lower-cased name is a key of the header map. */
  predicate HasHeader(r: Response, header: string)
  {
    ToLowerCase(header) in r.headers
  }

  /** The answer depends on the name only up to case. */
  lemma HasHeaderIgnoresCase(r: Response, a: string, b: string)
    requires SameUpToCase(a, b)
    ensures HasHeader(r, a) == HasHeader(r, b)
  {
    SameUpToCaseIsLowerCaseEquality(a, b);
  }

  /** With lower-case names, the lookup finds a header spelt in any case. */
  lemma HasHeaderFindsAnyCase(r: Response, header: string)
    requires LowerCaseNames(r)
    ensures HasHeader(r, header) <==> exists k :: k in r.headers && SameUpToCase(k, header)
  {
    var low := ToLowerCase(header);
    ToLowerCaseIdempotent(header);
    SameUpToCaseIsLowerCaseEquality(low, header);
    if exists k :: k in r.headers && SameUpToCase(k, header) {
      var k :| k in r.headers && SameUpToCase(k, header);
      SameUpToCaseIsLowerCaseEquality(k, header);
    }
  }

  /**
   * `has_header_value(header, value)` for a value of any JavaScript kind:
   * the header is present and its raw value is `===` to `value`, or the raw
   * value holds a comma and one of its comma-separated pieces (untrimmed) is
   * `===` to `value`. Raw values and pieces are strings, so only a string
   * value can match.
   */
  function HasHeaderValueOf(r: Response, header: string, value: Value): (b: bool)
    ensures b ==> HasHeader(r, header) && value.Str?
    ensures b <==> HasHeader(r, header) && value.Str? &&
                   var raw := r.headers[ToLowerCase(header)];
                   raw == value.s || value.s in Split(raw, ',')
  {
    var name := ToLowerCase(header);
    ToLowerCaseIdempotent(header);
    if HasHeader(r, name) then
      var raw := r.headers[name];
      if StrictEquals(Str(raw), value) then true
      else if ',' in raw then AnyPieceEquals(Split(raw, ','), value)
      else
        SplitWithoutSeparator(raw, ',');
        false
    else false
  }

  /** The search loop over the comma pieces: some piece is `===` to `value`. */
  function AnyPieceEquals(pieces: seq<string>, value: Value): (found: bool)
    ensures found <==> value.Str? && value.s in pieces
  {
    if |pieces| == 0 then false
    else if StrictEquals(Str(pieces[0]), value) then true
    else
      assert pieces == [pieces[0]] + pieces[1..];
      AnyPieceEquals(pieces[1..], value)
  }

  /** `has_header_value` with a string value, as test code calls it. */
  function HasHeaderValue(r: Response, header: string, value: string): (b: bool)
    ensures b ==> HasHeader(r, header)
    ensures b <==> HasHeader(r, header) &&
                   var raw := r.headers[ToLowerCase(header)];
                   raw == value || value in Split(raw, ',')
  {
    HasHeaderValueOf(r, header, Str(value))
  }

  /** A number never matches, even one that reads like the header: `content-length: 42` against 42. */
  lemma NumberNeverMatchesHeader()
    ensures var r := Response(map["content-length" := "42"], []);
            !HasHeaderValueOf(r, "content-length", Num(42)) && HasHeaderValueOf(r, "content-length", Str("42"))
  {
    assert ToLowerCase("content-length") == "content-length";
  }

  /**
   * The comma test is not needed to describe the answer: a value matches
   * exactly when it is the whole raw value or one of its comma pieces, and a
   * value that holds a comma can only match the whole raw value.
   */
  lemma HasHeaderValueIsPieceOrWhole(r: Response, header: string, value: string)
    requires HasHeader(r, header)
    ensures ',' !in r.headers[ToLowerCase(header)] ==>
              (HasHeaderValue(r, header, value) <==> value == r.headers[ToLowerCase(header)])
    ensures ',' in value ==>
              (HasHeaderValue(r, header, value) <==> value == r.headers[ToLowerCase(header)])
  {
  }

  /** Case of the name does not matter for the value check either. */
  lemma HasHeaderValueIgnoresCase(r: Response, a: string, b: string, value: string)
    requires SameUpToCase(a, b)
    ensures HasHeaderValue(r, a, value) == HasHeaderValue(r, b, value)
  {
    SameUpToCaseIsLowerCaseEquality(a, b);
  }

  /** Pieces are compared untrimmed: in "a, b" the piece is " b", so "b" does not match. */
  lemma {:induction false} HasHeaderValueUntrimmed()
    ensures var r := Response(map["x-list" := "a, b"], []);
            !HasHeaderValue(r, "x-list", "b") && HasHeaderValue(r, "x-list", " b")
  {
    assert ToLowerCase("x-list") == "x-list";
    SplitWithoutSeparator(" b", ',');
    SplitAfterPiece("a", ',', " b");
    assert "a" + [','] + " b" == "a, b";
  }

  /** A listed value matches, an unlisted one does not: "a,b,c" holds "b" but not "z". */
  lemma {:induction false} HasHeaderValueListed()
    ensures var r := Response(map["x" := "a,b,c"], []);
            HasHeaderValue(r, "X", "b") && !HasHeaderValue(r, "X", "z")
  {
    assert ToLowerCase("X") == "x";
    SplitWithoutSeparator("c", ',');
    SplitAfterPiece("b", ',', "c");
    SplitAfterPiece("a", ',', "b,c");
    assert "a" + [','] + "b,c" == "a,b,c";
    assert "b" + [','] + "c" == "b,c";
  }

  // ---------------------------------------------------------------------------
  // has_headers
  // ---------------------------------------------------------------------------

  /**
   * The argument of `has_headers`: an array of header names, or a plain
   * object whose own enumerable properties are name/value pairs, in
   * `Object.keys` order. An object's keys are distinct (`DistinctKeys`).
   */
  datatype HeaderQuery = Names(names: seq<string>) | Pairs(pairs: seq<(string, Value)>)

  /** No two pairs share a key, as in every JavaScript object. */
  predicate DistinctKeys(pairs: seq<(string, Value)>)
  {
    forall i, j :: 0 <= i < j < |pairs| ==> pairs[i].0 != pairs[j].0
  }

  /** How many of the names are present headers. */
  function CountPresent(r: Response, names: seq<string>): (n: nat)
    ensures n <= |names|
  {
    if |names| == 0 then 0
    else CountPresent(r, names[..|names| - 1]) + (if HasHeader(r, names[|names| - 1]) then 1 else 0)
  }

  /** How many of the pairs pass the value check. */
  function CountMatching(r: Response, pairs: seq<(string, Value)>): (n: nat)
    ensures n <= |pairs|
  {
    if |pairs| == 0 then 0
    else (if HasHeaderValueOf(r, pairs[0].0, pairs[0].1) then 1 else 0) + CountMatching(r, pairs[1..])
  }

  /** The number `has_headers` ends up with in `found`. */
  function Found(r: Response, q: HeaderQuery): nat
  {
    match q
    case Names(names) => CountPresent(r, names)
    case Pairs(pairs) => CountMatching(r, pairs)
  }

  /** The value of an object's property: the value of the pair with that key, else `undefined`. */
  function Property(pairs: seq<(string, Value)>, key: string): (v: Value)
    ensures (exists i :: 0 <= i < |pairs| && pairs[i].0 == key && pairs[i].1 == v) ||
            (v == Undefined && forall i :: 0 <= i < |pairs| ==> pairs[i].0 != key)
  {
    if |pairs| == 0 then Undefined
    else if pairs[0].0 == key then pairs[0].1
    else
      var v := Property(pairs[1..], key);
      assert forall i :: 1 <= i < |pairs| ==> pairs[1..][i - 1] == pairs[i];
      v
  }

  /** With distinct keys, a property is the value of the one pair with that key. */
  lemma {:induction false} PropertyOfDistinctKeys(pairs: seq<(string, Value)>, i: int)
    requires DistinctKeys(pairs) && 0 <= i < |pairs|
    ensures Property(pairs, pairs[i].0) == pairs[i].1
  {
    if i > 0 {
      assert pairs[0].0 != pairs[i].0;
      assert DistinctKeys(pairs[1..]) by {
        forall a, b | 0 <= a < b < |pairs| - 1
          ensures pairs[1..][a].0 != pairs[1..][b].0
        {
          assert pairs[1..][a] == pairs[a + 1] && pairs[1..][b] == pairs[b + 1];
        }
      }
      assert pairs[1..][i - 1] == pairs[i];
      PropertyOfDistinctKeys(pairs[1..], i - 1);
    }
  }

  /** `headers.length`: the array's length, or whatever the object's "length" property holds. */
  function LengthProperty(q: HeaderQuery): Value
  {
    match q
    case Names(names) => Num(|names|)
    case Pairs(pairs) => Property(pairs, "length")
  }

  /** All names are counted exactly when every name is present. */
  lemma {:induction false} CountPresentAll(r: Response, names: seq<string>)
    ensures CountPresent(r, names) == |names| <==> forall i :: 0 <= i < |names| ==> HasHeader(r, names[i])
  {
    if |names| > 0 {
      var init := names[..|names| - 1];
      CountPresentAll(r, init);
      assert forall i :: 0 <= i < |init| ==> init[i] == names[i];
    }
  }

  /** All pairs are counted exactly when every pair passes the value check. */
  lemma {:induction false} CountMatchingAll(r: Response, pairs: seq<(string, Value)>)
    ensures CountMatching(r, pairs) == |pairs| <==>
            forall i :: 0 <= i < |pairs| ==> HasHeaderValueOf(r, pairs[i].0, pairs[i].1)
  {
    if |pairs| > 0 {
      CountMatchingAll(r, pairs[1..]);
      assert forall i :: 1 <= i < |pairs| ==> pairs[1..][i - 1] == pairs[i];
    }
  }

  /**
   * `has_headers` as written: `found === headers.length`. For an array that
   * means every name is present. For an object `headers.length` is its
   * "length" property, usually `undefined`: an object passes only when it has
   * a "length" key holding exactly the number of matching pairs.
   */
  function HasHeaders(r: Response, q: HeaderQuery): (b: bool)
    ensures q.Names? ==> (b <==> forall i :: 0 <= i < |q.names| ==> HasHeader(r, q.names[i]))
    ensures q.Pairs? ==> (b <==> Property(q.pairs, "length") == Num(CountMatching(r, q.pairs)))
    ensures q.Pairs? && (forall i :: 0 <= i < |q.pairs| && q.pairs[i].0 == "length" ==> !q.pairs[i].1.Num?) ==> !b
  {
    if q.Names? then
      CountPresentAll(r, q.names);
      StrictEquals(Num(Found(r, q)), LengthProperty(q))
    else
      StrictEquals(Num(Found(r, q)), LengthProperty(q))
  }

  /**
   * The loops of `has_headers`: names are visited first to last, object keys
   * last to first; both end with the count and the comparison above.
   */
  method HasHeadersLoop(r: Response, q: HeaderQuery) returns (found: nat, b: bool)
    ensures found == Found(r, q)
    ensures found <= if q.Names? then |q.names| else |q.pairs|
    ensures b == HasHeaders(r, q)
  {
    found := 0;
    match q {
      case Names(names) =>
        for i := 0 to |names|
          invariant found == CountPresent(r, names[..i])
        {
          assert names[..i + 1][..i] == names[..i];
          if HasHeader(r, names[i]) {
            found := found + 1;
          }
        }
        assert names[..|names|] == names;
      case Pairs(pairs) =>
        var i := |pairs| - 1;
        while i >= 0
          invariant -1 <= i < |pairs|
          invariant found == CountMatching(r, pairs[i + 1..])
        {
          assert pairs[i..][1..] == pairs[i + 1..];
          if HasHeaderValueOf(r, pairs[i].0, pairs[i].1) {
            found := found + 1;
          }
          i := i - 1;
        }
    }
    b := StrictEquals(Num(found), LengthProperty(q));
  }

  /**
   * `has_headers` as its documentation describes it: the count is compared
   * with the number of entries, so an object passes when every pair passes.
   */
  function HasHeadersIntended(r: Response, q: HeaderQuery): (b: bool)
    ensures q.Names? ==> b == HasHeaders(r, q)
    ensures q.Pairs? ==>
              (b <==> forall i :: 0 <= i < |q.pairs| ==> HasHeaderValueOf(r, q.pairs[i].0, q.pairs[i].1))
  {
    match q
    case Names(names) =>
      CountPresentAll(r, names);
      Found(r, q) == |names|
    case Pairs(pairs) =>
      CountMatchingAll(r, pairs);
      Found(r, q) == |pairs|
  }

  /** An object whose only pair matches is rejected as written and accepted as intended. */
  lemma HasHeadersObjectRejected()
    ensures var r := Response(map["content-type" := "text/html"], []);
            var q := Pairs([("content-type", Str("text/html"))]);
            !HasHeaders(r, q) && HasHeadersIntended(r, q)
  {
    assert ToLowerCase("content-type") == "content-type";
  }

  /**
   * A numeric "length" key equal to the match count makes an object pass as
   * written: `{length: 0}` passes against any response, and so does
   * `{"content-type": "text/html", length: 1}` against a response with that
   * header; neither passes as intended.
   */
  lemma HasHeadersLengthKeyAccepted(r: Response)
    ensures HasHeaders(r, Pairs([("length", Num(0))]))
    ensures !HasHeadersIntended(r, Pairs([("length", Num(0))]))
    ensures r.headers == map["content-type" := "text/html"] ==>
              var q := Pairs([("content-type", Str("text/html")), ("length", Num(1))]);
              HasHeaders(r, q) && !HasHeadersIntended(r, q)
  {
    assert ToLowerCase("content-type") == "content-type";
    var q := [("content-type", Str("text/html")), ("length", Num(1))];
    assert q[1..] == [("length", Num(1))];
    if r.headers == map["content-type" := "text/html"] {
      assert HasHeaderValueOf(r, "content-type", Str("text/html"));
      assert CountMatching(r, q) == 1;
    }
  }

  // ---------------------------------------------------------------------------
  // body_identical_to_buffer
  // ---------------------------------------------------------------------------

  /**
   * The byte scan of `body_identical_to_buffer`: every byte of the body, from `i` on, is `===`
   * to the byte of `buf` at the same index (an index past the end of `buf`
   * reads `undefined`, which matches no byte).
   */
  function ScanAgrees(data: seq<byte>, buf: seq<byte>, i: nat): (same: bool)
    requires i <= |data|
    ensures |buf| == |data| ==> (same <==> data[i..] == buf[i..])
    decreases |data| - i
  {
    if i == |data| then true
    else if i >= |buf| || data[i] != buf[i] then false
    else
      var rest := ScanAgrees(data, buf, i + 1);
      assert |buf| == |data| ==> data[i..] == [data[i]] + data[i + 1..] && buf[i..] == [buf[i]] + buf[i + 1..];
      rest
  }

  /**
   * `body_identical_to_buffer` once `response_data` is captured, given the
   * outcome of evaluating the right operand of its length test: `buf.length`
   * is evaluated first, then the right operand; a throw there propagates, a
   * value other than `buf.length` gives false, and otherwise the byte scan
   * over the body's length decides.
   */
  function BodyIdenticalGiven(right: Completion<Value>, r: Response, buf: seq<byte>): (c: Completion<bool>)
    ensures c.Throw? <==> right.Throw?
    ensures right.Normal? && right.value != Num(|buf|) ==> c == Normal(false)
    ensures right == Normal(Num(|r.body|)) ==> c == Normal(buf == r.body)
  {
    var left := Num(|buf|);
    match right
    case Throw(e) => Throw(e)
    case Normal(v) =>
      if !StrictEquals(left, v) then Normal(false)
      else Normal(ScanAgrees(r.body, buf, 0))
  }

  /**
   * `body_identical_to_buffer` as written: `response_data.length` is the
   * number of bytes, so the right operand `response_data.length()` calls a
   * number and throws before any byte is compared.
   */
  function BodyIdenticalAsWritten(r: Response, buf: seq<byte>): (c: Completion<bool>)
    ensures c.Throw?
  {
    BodyIdenticalGiven(Call(Num(|r.body|)), r, buf)
  }

  /**
   * `body_identical_to_buffer` with the length comparison it intends: false
   * on a length mismatch, else a byte-by-byte scan that stops at the first
   * differing byte.
   */
  method BodyIdenticalToBuffer(r: Response, buf: seq<byte>) returns (same: bool)
    ensures |buf| != |r.body| ==> !same
    ensures same <==> |buf| == |r.body| && forall i :: 0 <= i < |buf| ==> buf[i] == r.body[i]
    ensures same <==> buf == r.body
    ensures BodyIdenticalGiven(Normal(Num(|r.body|)), r, buf) == Normal(same)
  {
    var data := r.body;
    if |buf| != |data| {
      return false;
    }
    for i := 0 to |data|
      invariant forall j :: 0 <= j < i ==> buf[j] == data[j]
    {
      if data[i] != buf[i] {
        return false;
      }
    }
    return true;
  }
}
