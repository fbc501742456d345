/**
 * The part of the WHATWG URL Standard's `URLSearchParams` that the product
 * query builder relies on: an ordered list of name-value pairs, its `set`
 * operation (section 6.2), and the application/x-www-form-urlencoded
 * serializer and parser (sections 5.2 and 5.1). The byte-level percent
 * encoding and decoding are left abstract: they are passed in as functions.
 */
module UrlParams {
  import opened Wrappers

  datatype Param = Param(name: string, value: string)

  // ---------------------------------------------------------------------------
  // Queries on a list of pairs
  // ---------------------------------------------------------------------------

  predicate Mentions(list: seq<Param>, name: string) {
    exists i :: 0 <= i < |list| && list[i].name == name
  }

  /** The value of the first pair called name (what `get` returns). */
  function Lookup(list: seq<Param>, name: string): (r: Option<string>)
    ensures r.Some? <==> Mentions(list, name)
  {
    if list == [] then None
    else if list[0].name == name then Some(list[0].value)
    else Lookup(list[1..], name)
  }

  /** The pairs not called name, in order. */
  function Without(list: seq<Param>, name: string): (r: seq<Param>)
    ensures !Mentions(r, name)
    ensures |r| <= |list|
  {
    if list == [] then []
    else if list[0].name == name then Without(list[1..], name)
    else [list[0]] + Without(list[1..], name)
  }

  /** Index of the first pair called name, or |list| when there is none. */
  function FirstIndex(list: seq<Param>, name: string): (k: nat)
    ensures k <= |list|
    ensures forall j :: 0 <= j < k ==> list[j].name != name
    ensures k < |list| <==> Mentions(list, name)
    ensures k < |list| ==> list[k].name == name
  {
    if list == [] then 0
    else if list[0].name == name then 0
    else 1 + FirstIndex(list[1..], name)
  }

  /** How many pairs are called name. */
  function Count(list: seq<Param>, name: string): nat {
    if list == [] then 0
    else (if list[0].name == name then 1 else 0) + Count(list[1..], name)
  }

  lemma {:induction false} CountAbsent(list: seq<Param>, name: string)
    requires !Mentions(list, name)
    ensures Count(list, name) == 0
  {
    if list != [] {
      assert !Mentions(list[1..], name) by {
        forall i | 0 <= i < |list[1..]| ensures list[1..][i].name != name {
          assert list[1..][i] == list[i + 1];
        }
      }
      CountAbsent(list[1..], name);
    }
  }

  lemma {:induction false} WithoutAbsent(list: seq<Param>, name: string)
    requires !Mentions(list, name)
    ensures Without(list, name) == list
  {
    if list != [] {
      assert !Mentions(list[1..], name) by {
        forall i | 0 <= i < |list[1..]| ensures list[1..][i].name != name {
          assert list[1..][i] == list[i + 1];
        }
      }
      WithoutAbsent(list[1..], name);
    }
  }

  // ---------------------------------------------------------------------------
  // set(name, value)
  // ---------------------------------------------------------------------------

  /** Give the first pair called name the new value and drop the other pairs called name. */
  function ReplaceFirst(list: seq<Param>, name: string, value: string): (r: seq<Param>)
    requires Mentions(list, name)
    ensures Lookup(r, name) == Some(value)
    ensures Count(r, name) == 1
    ensures Without(r, name) == Without(list, name)
    ensures var k := FirstIndex(list, name);
      r == list[..k] + [Param(name, value)] + Without(list[k + 1..], name)
  {
    if list[0].name == name then
      var rest := Without(list[1..], name);
      CountAbsent(rest, name);
      WithoutAbsent(rest, name);
      [Param(name, value)] + rest
    else
      assert Mentions(list[1..], name) by {
        var i :| 0 <= i < |list| && list[i].name == name;
        assert list[1..][i - 1] == list[i];
      }
      var tail := ReplaceFirst(list[1..], name, value);
      SplitAfterHead(list, FirstIndex(list, name), Param(name, value), Without(list[FirstIndex(list, name) + 1..], name));
      [list[0]] + tail
  }

  /** Moving the head out of a split of list at position k, 1 <= k < |list|. */
  lemma SplitAfterHead(list: seq<Param>, k: nat, p: Param, after: seq<Param>)
    requires 1 <= k < |list|
    ensures list[..k] + [p] + after == [list[0]] + (list[1..][..k - 1] + [p] + after)
    ensures list[k + 1..] == list[1..][k..]
  {
    assert list[..k] == [list[0]] + list[1..][..k - 1];
  }

  /** `URLSearchParams.set`, as a function of the list before the call. */
  function SetParam(list: seq<Param>, name: string, value: string): (r: seq<Param>)
    ensures Lookup(r, name) == Some(value)
    ensures Count(r, name) == 1
    ensures Without(r, name) == Without(list, name)
    ensures var k := FirstIndex(list, name);
      r == list[..k] + [Param(name, value)] + (if k < |list| then Without(list[k + 1..], name) else [])
  {
    if Mentions(list, name) then ReplaceFirst(list, name, value)
    else
      AppendFresh(list, name, value);
      list + [Param(name, value)]
  }

  lemma {:induction false} AppendFresh(list: seq<Param>, name: string, value: string)
    requires !Mentions(list, name)
    ensures Lookup(list + [Param(name, value)], name) == Some(value)
    ensures Count(list + [Param(name, value)], name) == 1
    ensures Without(list + [Param(name, value)], name) == Without(list, name)
  {
    if list == [] {
      assert [Param(name, value)][1..] == [];
    } else {
      assert (list + [Param(name, value)])[1..] == list[1..] + [Param(name, value)];
      assert !Mentions(list[1..], name) by {
        forall i | 0 <= i < |list[1..]| ensures list[1..][i].name != name {
          assert list[1..][i] == list[i + 1];
        }
      }
      AppendFresh(list[1..], name, value);
    }
  }

  /** A name not yet in the list is appended at the end: insertion order is kept. */
  lemma SetParamAppends(list: seq<Param>, name: string, value: string)
    requires !Mentions(list, name)
    ensures SetParam(list, name, value) == list + [Param(name, value)]
  {
  }

  /** The `URLSearchParams` object: its list of pairs changes in place. */
  class SearchParams {
    var list: seq<Param>

    constructor ()
      ensures list == []
    {
      list := [];
    }

    method Set(name: string, value: string)
      modifies this
      ensures list == SetParam(old(list), name, value)
    {
      list := SetParam(list, name, value);
    }
  }

  // ---------------------------------------------------------------------------
  // application/x-www-form-urlencoded
  // ---------------------------------------------------------------------------

  /**
   * The serializer: `name=value` for every pair, joined by `&`. encode stands
   * for UTF-8 encoding followed by the urlencoded byte serializer.
   */
  function Serialize(list: seq<Param>, encode: string -> string): string {
    if list == [] then ""
    else if |list| == 1 then SerializePair(list[0], encode)
    else SerializePair(list[0], encode) + "&" + Serialize(list[1..], encode)
  }

  function SerializePair(p: Param, encode: string -> string): string {
    encode(p.name) + "=" + encode(p.value)
  }

  /** Index of the first c in s, or |s| when there is none. */
  function IndexOf(s: string, c: char): (i: nat)
    ensures i <= |s|
    ensures forall j :: 0 <= j < i ==> s[j] != c
    ensures i < |s| ==> s[i] == c
  {
    if s == [] then 0
    else if s[0] == c then 0
    else 1 + IndexOf(s[1..], c)
  }

  /**
   * The parser: split on `&`, skip empty pieces, split each piece at its first
   * `=` (no `=`: the whole piece is the name and the value is empty). decode
   * stands for replacing `+` by a space, percent-decoding and UTF-8 decoding.
   */
  function Parse(s: string, decode: string -> string): seq<Param>
    decreases |s|
  {
    if s == [] then []
    else
      var i := IndexOf(s, '&');
      var piece := s[..i];
      (if piece == [] then [] else [ParsePair(piece, decode)])
        + (if i < |s| then Parse(s[i + 1..], decode) else [])
  }

  function ParsePair(piece: string, decode: string -> string): Param {
    var j := IndexOf(piece, '=');
    if j < |piece| then Param(decode(piece[..j]), decode(piece[j + 1..]))
    else Param(decode(piece), decode(""))
  }

  /** What the encoder guarantees: no `&` or `=` survives it, and decode undoes it. */
  ghost predicate CodecPair(encode: string -> string, decode: string -> string) {
    forall s :: '&' !in encode(s) && '=' !in encode(s) && decode(encode(s)) == s
  }

  lemma IndexOfAfter(a: string, c: char, b: string)
    requires c !in a
    ensures IndexOf(a + [c] + b, c) == |a|
  {
    var s := a + [c] + b;
    assert forall j :: 0 <= j < |a| ==> s[j] == a[j];
    assert s[|a|] == c;
  }

  lemma IndexOfNone(a: string, c: char)
    requires c !in a
    ensures IndexOf(a, c) == |a|
  {
  }

  lemma {:induction false} ParsePairInverts(p: Param, encode: string -> string, decode: string -> string)
    requires CodecPair(encode, decode)
    ensures '&' !in SerializePair(p, encode) && SerializePair(p, encode) != []
    ensures ParsePair(SerializePair(p, encode), decode) == p
  {
    var n, v := encode(p.name), encode(p.value);
    var piece := SerializePair(p, encode);
    assert piece == n + ['='] + v;
    IndexOfAfter(n, '=', v);
    assert piece[..|n|] == n;
    assert piece[|n| + 1..] == v;
    assert piece[|n|] == '=';
  }

  /** Parsing what the serializer wrote gives back the same pairs, in the same order. */
  lemma {:induction false} ParseSerialize(list: seq<Param>, encode: string -> string, decode: string -> string)
    requires CodecPair(encode, decode)
    ensures Parse(Serialize(list, encode), decode) == list
    decreases |list|
  {
    if list != [] {
      var head := SerializePair(list[0], encode);
      ParsePairInverts(list[0], encode, decode);
      if |list| == 1 {
        IndexOfNone(head, '&');
        assert head[..|head|] == head;
      } else {
        var tail := Serialize(list[1..], encode);
        var s := head + "&" + tail;
        IndexOfAfter(head, '&', tail);
        assert s[..|head|] == head;
        assert s[|head| + 1..] == tail;
        ParseSerialize(list[1..], encode, decode);
      }
    }
  }
}
