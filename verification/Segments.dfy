/** Incremental parsing of a byte stream that arrives in arbitrary pieces.
    Both consumers of this module keep unread bytes in a buffer, append what a read returned,
    and take items off the front until no complete item is left. */
module Segments {
  import opened Bytes

  /** What a parser says about the front of a buffer: wait for more bytes, take an item of
      `size` bytes, or throw the buffer away. */
  datatype Outcome<T> = Need | Got(size: nat, item: T) | Bad

  type Parser<!T> = Bytestring -> Outcome<T>

  /** `parse` undoes `enc` on the items satisfying `ok`, whatever follows, and waits on every cut item. */
  ghost predicate Exact<T(!new)>(parse: Parser<T>, enc: T -> Bytestring, ok: T -> bool)
  {
    && parse([]).Need?
    && (forall x :: ok(x) ==> enc(x) != [])
    && (forall x, rest :: ok(x) ==> parse(enc(x) + rest) == Got(|enc(x)|, x))
    && (forall x, n :: ok(x) && 0 <= n < |enc(x)| ==> parse(enc(x)[..n]).Need?)
  }

  /** The taking loop: all items taken from `buf`, and the bytes kept. An item always has a size
      between one byte and what there is. */
  function Drain<T>(parse: Parser<T>, buf: Bytestring): (r: (seq<T>, Bytestring))
    decreases |buf|
  {
    match parse(buf)
    case Need => ([], buf)
    case Bad => ([], [])
    case Got(n, x) =>
      if 1 <= n <= |buf| then
        var (xs, rest) := Drain(parse, buf[n..]);
        ([x] + xs, rest)
      else ([], buf)
  }

  lemma DrainGot<T>(parse: Parser<T>, buf: Bytestring, done: seq<T>)
    requires parse(buf).Got? && 1 <= parse(buf).size <= |buf|
    ensures var rest := Drain(parse, buf[parse(buf).size..]);
            && done + Drain(parse, buf).0 == (done + [parse(buf).item]) + rest.0
            && Drain(parse, buf).1 == rest.1
  {
  }

  /** A whole run: every chunk is appended to what was kept, then the taking loop runs. */
  function Feed<T>(parse: Parser<T>, kept: Bytestring, chunks: seq<Bytestring>): (r: (seq<T>, Bytestring))
    decreases |chunks|
  {
    if chunks == [] then ([], kept)
    else
      var (xs, rest) := Drain(parse, kept + chunks[0]);
      var (ys, rest') := Feed(parse, rest, chunks[1..]);
      (xs + ys, rest')
  }

  lemma FirstTaken<T>(parse: Parser<T>, first: Bytestring, others: seq<Bytestring>)
    requires parse(first).Got? && 1 <= parse(first).size <= |first|
    ensures Feed(parse, [], [first] + others).0 != []
    ensures Feed(parse, [], [first] + others).0[0] == parse(first).item
  {
    assert [] + first == first;
    assert ([first] + others)[1..] == others;
  }

  function EncAll<T>(enc: T -> Bytestring, items: seq<T>): Bytestring
  {
    if items == [] then [] else enc(items[0]) + EncAll(enc, items[1..])
  }

  lemma {:induction false} EncAllConcat<T>(enc: T -> Bytestring, a: seq<T>, b: seq<T>)
    ensures EncAll(enc, a + b) == EncAll(enc, a) + EncAll(enc, b)
  {
    if a == [] {
      assert a + b == b;
    } else {
      assert (a + b)[1..] == a[1..] + b;
      EncAllConcat(enc, a[1..], b);
    }
  }

  /** `xs` and `rest` are exactly the complete items and the unfinished suffix of `stream`. */
  ghost predicate ExactCut<T(!new)>(enc: T -> Bytestring, items: seq<T>, stream: Bytestring, xs: seq<T>,
                                    rest: Bytestring)
  {
    && xs <= items
    && EncAll(enc, xs) + rest == stream
    && (|xs| < |items| ==> rest < enc(items[|xs|]))
    && (|xs| == |items| ==> rest == [])
  }

  lemma {:induction false} DrainExact<T(!new)>(parse: Parser<T>, enc: T -> Bytestring, ok: T -> bool,
                                               items: seq<T>, buf: Bytestring)
    requires Exact(parse, enc, ok)
    requires forall x :: x in items ==> ok(x)
    requires buf <= EncAll(enc, items)
    ensures var r := Drain(parse, buf); ExactCut(enc, items, buf, r.0, r.1)
    decreases |items|
  {
    if items == [] {
      assert buf == [];
    } else {
      var x, e := items[0], enc(items[0]);
      assert x in items;
      if |buf| < |e| {
        assert buf == e[..|buf|];
        assert EncAll(enc, []) + buf == buf;
      } else {
        assert buf == e + buf[|e|..];
        assert parse(buf) == Got(|e|, x);
        assert EncAll(enc, items)[|e|..] == EncAll(enc, items[1..]);
        assert buf[|e|..] <= EncAll(enc, items[1..]);
        DrainExact(parse, enc, ok, items[1..], buf[|e|..]);
        var (xs, rest) := Drain(parse, buf[|e|..]);
        assert ([x] + xs)[1..] == xs;
        assert EncAll(enc, [x] + xs) + rest == e + (EncAll(enc, xs) + rest);
      }
    }
  }

  lemma CutRest<T(!new)>(enc: T -> Bytestring, items: seq<T>, buf: Bytestring, xs: seq<T>, rest: Bytestring,
                         more: Bytestring)
    requires ExactCut(enc, items, buf, xs, rest)
    requires buf + more <= EncAll(enc, items)
    ensures rest + more <= EncAll(enc, items[|xs|..])
  {
    var items' := items[|xs|..];
    assert items == xs + items';
    EncAllConcat(enc, xs, items');
    assert EncAll(enc, xs) + (rest + more) == buf + more;
    var n := |EncAll(enc, xs)|;
    assert (buf + more)[n..] == rest + more;
    assert EncAll(enc, items)[n..] == EncAll(enc, items');
  }

  lemma CutJoin<T(!new)>(enc: T -> Bytestring, items: seq<T>, buf: Bytestring, xs: seq<T>, rest: Bytestring,
                         more: Bytestring, ys: seq<T>, rest': Bytestring)
    requires ExactCut(enc, items, buf, xs, rest)
    requires ExactCut(enc, items[|xs|..], rest + more, ys, rest')
    ensures ExactCut(enc, items, buf + more, xs + ys, rest')
  {
    EncAllConcat(enc, xs, ys);
    assert EncAll(enc, xs + ys) + rest' == EncAll(enc, xs) + (EncAll(enc, ys) + rest');
    assert EncAll(enc, xs) + (rest + more) == buf + more;
  }

  lemma {:induction false} FeedExactFrom<T(!new)>(parse: Parser<T>, enc: T -> Bytestring, ok: T -> bool,
                                                  items: seq<T>, kept: Bytestring, chunks: seq<Bytestring>)
    requires Exact(parse, enc, ok)
    requires forall x :: x in items ==> ok(x)
    requires kept + Flatten(chunks) <= EncAll(enc, items)
    requires items != [] ==> kept < enc(items[0])
    ensures var r := Feed(parse, kept, chunks); ExactCut(enc, items, kept + Flatten(chunks), r.0, r.1)
    decreases |chunks|
  {
    if chunks == [] {
      assert kept + Flatten(chunks) == kept;
      assert EncAll(enc, []) + kept == kept;
    } else {
      var buf := kept + chunks[0];
      assert buf + Flatten(chunks[1..]) == kept + Flatten(chunks);
      DrainExact(parse, enc, ok, items, buf);
      var (xs, rest) := Drain(parse, buf);
      var items' := items[|xs|..];
      CutRest(enc, items, buf, xs, rest, Flatten(chunks[1..]));
      FeedExactFrom(parse, enc, ok, items', rest, chunks[1..]);
      var (ys, rest') := Feed(parse, rest, chunks[1..]);
      CutJoin(enc, items, buf, xs, rest, Flatten(chunks[1..]), ys, rest');
    }
  }

  /** Segmentation does not matter: for every list of items and every cutting of (a prefix of) their
      bytes into reads, exactly the complete items come out, in order, and exactly the unfinished
      suffix is kept. */
  lemma FeedExact<T(!new)>(parse: Parser<T>, enc: T -> Bytestring, ok: T -> bool,
                           items: seq<T>, chunks: seq<Bytestring>)
    requires Exact(parse, enc, ok)
    requires forall x :: x in items ==> ok(x)
    requires Flatten(chunks) <= EncAll(enc, items)
    ensures var r := Feed(parse, [], chunks); ExactCut(enc, items, Flatten(chunks), r.0, r.1)
  {
    assert [] + Flatten(chunks) == Flatten(chunks);
    if items != [] {
      assert items[0] in items;
    }
    FeedExactFrom(parse, enc, ok, items, [], chunks);
  }
}
