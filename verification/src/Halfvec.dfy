/** The binary `halfvec` codec: rows of half-precision words encoded as payloads, and a block of payloads
    decoded at once from their concatenation. */
module Halfvec {
  import opened Basics

  newtype Byte = x: int | 0 <= x < 256
  newtype Word = x: int | 0 <= x < 65536

  type Vector = seq<Word>

  const HEADER_WORDS: nat := 2
  const MAX_DIMENSIONS: nat := 65535

  datatype Result = Ok(vectors: seq<Vector>) | ValueError | IndexError

  // ---- Big-endian words ----

  function High(w: Word): Byte { ((w as int) / 256) as Byte }
  function Low(w: Word): Byte { ((w as int) % 256) as Byte }
  function Pack(hi: Byte, lo: Byte): Word { ((hi as int) * 256 + (lo as int)) as Word }

  lemma PackSplits(w: Word)
    ensures Pack(High(w), Low(w)) == w
  {
  }

  lemma SplitPacks(hi: Byte, lo: Byte)
    ensures High(Pack(hi, lo)) == hi && Low(Pack(hi, lo)) == lo
  {
  }

  function Bytes(words: seq<Word>): (b: seq<Byte>)
    ensures |b| == 2 * |words|
  {
    if words == [] then [] else [High(words[0]), Low(words[0])] + Bytes(words[1..])
  }

  function Words(bytes: seq<Byte>): (w: seq<Word>)
    requires |bytes| % 2 == 0
    ensures 2 * |w| == |bytes|
  {
    if bytes == [] then [] else [Pack(bytes[0], bytes[1])] + Words(bytes[2..])
  }

  lemma {:induction false} WordsOfBytes(words: seq<Word>)
    ensures Words(Bytes(words)) == words
  {
    if words != [] {
      PackSplits(words[0]);
      WordsOfBytes(words[1..]);
      assert Bytes(words)[2..] == Bytes(words[1..]);
    }
  }

  lemma {:induction false} BytesOfWords(bytes: seq<Byte>)
    requires |bytes| % 2 == 0
    ensures Bytes(Words(bytes)) == bytes
  {
    if bytes != [] {
      SplitPacks(bytes[0], bytes[1]);
      BytesOfWords(bytes[2..]);
      assert Words(bytes)[1..] == Words(bytes[2..]);
      assert bytes == [bytes[0], bytes[1]] + bytes[2..];
    }
  }

  lemma {:induction false} BytesConcat(a: seq<Word>, b: seq<Word>)
    ensures Bytes(a + b) == Bytes(a) + Bytes(b)
  {
    if a == [] {
      assert a + b == b;
    } else {
      assert (a + b)[1..] == a[1..] + b;
      BytesConcat(a[1..], b);
    }
  }

  // ---- Payloads ----

  /** The words of one payload: dimensions, an unused zero, the vector. */
  function RowWords(v: Vector): (r: seq<Word>)
    requires |v| <= MAX_DIMENSIONS
    ensures |r| == |v| + HEADER_WORDS
  {
    [|v| as Word, 0] + v
  }

  function Payload(v: Vector): (p: seq<Byte>)
    requires |v| <= MAX_DIMENSIONS
    ensures |p| == 2 * (|v| + HEADER_WORDS)
  {
    Bytes(RowWords(v))
  }

  lemma {:induction false} BytesAt(words: seq<Word>, i: nat)
    requires i < |words|
    ensures Bytes(words)[2 * i] as int * 256 + Bytes(words)[2 * i + 1] as int == words[i] as int
  {
    if i > 0 {
      BytesAt(words[1..], i - 1);
      assert Bytes(words)[2..] == Bytes(words[1..]);
    }
  }

  /** The bytes on the wire, most significant first: the dimensions, zero, and one half-precision word each. */
  lemma WireBytes(v: Vector)
    requires |v| <= MAX_DIMENSIONS
    ensures var p := Payload(v);
      && |p| == 4 + 2 * |v| && p[0] as int * 256 + p[1] as int == |v| && p[2] == 0 && p[3] == 0
      && forall i :: 0 <= i < |v| ==> p[4 + 2 * i] as int * 256 + p[5 + 2 * i] as int == v[i] as int
  {
    var words, p := RowWords(v), Payload(v);
    BytesAt(words, 0);
    BytesAt(words, 1);
    forall i | 0 <= i < |v| ensures p[4 + 2 * i] as int * 256 + p[5 + 2 * i] as int == v[i] as int {
      BytesAt(words, i + 2);
      assert words[i + 2] == v[i];
    }
  }

  predicate Fits(vectors: seq<Vector>, dimensions: nat) {
    dimensions <= MAX_DIMENSIONS && forall i :: 0 <= i < |vectors| ==> |vectors[i]| == dimensions
  }

  function Joined(blobs: seq<seq<Byte>>): seq<Byte> {
    if blobs == [] then [] else blobs[0] + Joined(blobs[1..])
  }

  function Payloads(vectors: seq<Vector>): (r: seq<seq<Byte>>)
    requires forall i :: 0 <= i < |vectors| ==> |vectors[i]| <= MAX_DIMENSIONS
    ensures |r| == |vectors|
  {
    seq(|vectors|, i requires 0 <= i < |vectors| => Payload(vectors[i]))
  }

  function AllWords(vectors: seq<Vector>, dimensions: nat): (r: seq<Word>)
    requires Fits(vectors, dimensions)
    ensures |r| == Times(|vectors|, dimensions + HEADER_WORDS)
  {
    if vectors == [] then [] else RowWords(vectors[0]) + AllWords(vectors[1..], dimensions)
  }

  lemma {:induction false} JoinedPayloads(vectors: seq<Vector>, dimensions: nat)
    requires Fits(vectors, dimensions)
    ensures Joined(Payloads(vectors)) == Bytes(AllWords(vectors, dimensions))
  {
    if vectors != [] {
      JoinedPayloads(vectors[1..], dimensions);
      assert Payloads(vectors)[1..] == Payloads(vectors[1..]);
      BytesConcat(RowWords(vectors[0]), AllWords(vectors[1..], dimensions));
    }
  }

  lemma PayloadSizes(vectors: seq<Vector>, dimensions: nat)
    requires Fits(vectors, dimensions)
    ensures forall i :: 0 <= i < |vectors| ==> |Payloads(vectors)[i]| == (dimensions + HEADER_WORDS) * 2
  {
  }

  lemma CutNext(buffer: seq<Byte>, start: nat, payloads: seq<seq<Byte>>, i: nat, rowBytes: nat)
    requires start <= |buffer| && i < |payloads| && buffer[start..] == Joined(payloads[i..]) && |payloads[i]| == rowBytes
    ensures start + rowBytes <= |buffer| && buffer[start..start + rowBytes] == payloads[i]
    ensures buffer[start + rowBytes..] == Joined(payloads[i + 1..])
    ensures payloads[..i] + [payloads[i]] == payloads[..i + 1]
  {
    assert payloads[i..][0] == payloads[i] && payloads[i..][1..] == payloads[i + 1..];
    assert buffer[start..][..rowBytes] == buffer[start..start + rowBytes];
    assert buffer[start..][rowBytes..] == buffer[start + rowBytes..];
  }

  /** `_halfvec_binary_rows`: all rows written into one buffer, which is then cut into payloads. */
  method BinaryRows(vectors: seq<Vector>, dimensions: nat) returns (rows: seq<seq<Byte>>)
    requires Fits(vectors, dimensions)
    ensures rows == Payloads(vectors)
  {
    var buffer := Bytes(AllWords(vectors, dimensions));
    var rowBytes := (dimensions + HEADER_WORDS) * 2;
    ghost var payloads := Payloads(vectors);
    PayloadSizes(vectors, dimensions);
    JoinedPayloads(vectors, dimensions);
    rows := [];
    var start: nat := 0;
    assert payloads[0..] == payloads && buffer[0..] == buffer;
    while |rows| < |vectors|
      invariant |rows| <= |vectors| && rows == payloads[..|rows|]
      invariant start <= |buffer| && buffer[start..] == Joined(payloads[|rows|..])
    {
      CutNext(buffer, start, payloads, |rows|, rowBytes);
      rows := rows + [buffer[start..start + rowBytes]];
      start := start + rowBytes;
    }
  }

  // ---- Decoding ----

  /** The words cut into `count` rows. */
  function Rows(words: seq<Word>, count: nat, width: nat): (r: seq<seq<Word>>)
    requires |words| == Times(count, width)
    ensures |r| == count
  {
    if count == 0 then [] else [words[..width]] + Rows(words[width..], count - 1, width)
  }

  predicate HeaderOk(row: seq<Word>, dimensions: nat) {
    |row| == dimensions + HEADER_WORDS && row[0] as int == dimensions && row[1] == 0
  }

  function Body(row: seq<Word>): Vector {
    if |row| < HEADER_WORDS then [] else row[HEADER_WORDS..]
  }

  function Bodies(rows: seq<seq<Word>>, dimensions: nat): (r: seq<Vector>)
    requires forall i :: 0 <= i < |rows| ==> HeaderOk(rows[i], dimensions)
    ensures |r| == |rows|
  {
    seq(|rows|, i requires 0 <= i < |rows| => Body(rows[i]))
  }

  /** The rows of the given width: their headers are checked, their bodies kept. */
  function ParseRows(rows: seq<seq<Word>>, dimensions: nat): Result {
    if exists i :: 0 <= i < |rows| && !HeaderOk(rows[i], dimensions) then ValueError else Ok(Bodies(rows, dimensions))
  }

  /** `_parse_halfvec_block`. The row width is taken from the first blob alone. */
  function ParseBlock(blobs: seq<seq<Byte>>): Result {
    var bytes := Joined(blobs);
    if |bytes| % 2 != 0 then ValueError
    else if blobs == [] then IndexError
    else
      var words := Words(bytes);
      var dimensions := |blobs[0]| / 2 - HEADER_WORDS;
      TimesIsProduct(|blobs|, if dimensions < 1 then 0 else dimensions + HEADER_WORDS);
      if dimensions < 1 || |words| != |blobs| * (dimensions + HEADER_WORDS) then ValueError
      else ParseRows(Rows(words, |blobs|, dimensions + HEADER_WORDS), dimensions)
  }

  lemma {:induction false} RowsOfAllWords(vectors: seq<Vector>, dimensions: nat, rows: seq<seq<Word>>)
    requires Fits(vectors, dimensions)
    requires rows == Rows(AllWords(vectors, dimensions), |vectors|, dimensions + HEADER_WORDS)
    ensures forall i :: 0 <= i < |rows| ==> rows[i] == RowWords(vectors[i])
    decreases |vectors|
  {
    if vectors != [] {
      var words := AllWords(vectors, dimensions);
      assert words[..dimensions + HEADER_WORDS] == RowWords(vectors[0]);
      assert words[dimensions + HEADER_WORDS..] == AllWords(vectors[1..], dimensions);
      RowsOfAllWords(vectors[1..], dimensions, rows[1..]);
      forall i | 0 < i < |rows| ensures rows[i] == RowWords(vectors[i]) {
        assert rows[1..][i - 1] == RowWords(vectors[1..][i - 1]);
      }
    }
  }

  lemma FirstRow(words: seq<Word>, dimensions: nat, vectors: seq<Vector>)
    requires vectors != [] && |words| >= dimensions + HEADER_WORDS && dimensions <= MAX_DIMENSIONS
    requires HeaderOk(words[..dimensions + HEADER_WORDS], dimensions) && vectors[0] == Body(words[..dimensions + HEADER_WORDS])
    requires Fits(vectors[1..], dimensions) && AllWords(vectors[1..], dimensions) == words[dimensions + HEADER_WORDS..]
    ensures Fits(vectors, dimensions) && AllWords(vectors, dimensions) == words
  {
    var width := dimensions + HEADER_WORDS;
    assert forall i :: 0 < i < |vectors| ==> vectors[i] == vectors[1..][i - 1];
    assert RowWords(vectors[0]) == words[..width];
    assert words[..width] + words[width..] == words;
  }

  lemma {:induction false} AllWordsOfRows(words: seq<Word>, rows: seq<seq<Word>>, dimensions: nat, vectors: seq<Vector>)
    requires dimensions <= MAX_DIMENSIONS && |vectors| == |rows|
    requires |words| == Times(|rows|, dimensions + HEADER_WORDS) && rows == Rows(words, |rows|, dimensions + HEADER_WORDS)
    requires forall i :: 0 <= i < |rows| ==> HeaderOk(rows[i], dimensions) && vectors[i] == Body(rows[i])
    ensures Fits(vectors, dimensions) && AllWords(vectors, dimensions) == words
    decreases |rows|
  {
    if rows != [] {
      var width := dimensions + HEADER_WORDS;
      var rest := Rows(words[width..], |rows| - 1, width);
      assert rows == [words[..width]] + rest;
      assert rest == rows[1..];
      AllWordsOfRows(words[width..], rest, dimensions, vectors[1..]);
      assert HeaderOk(rows[0], dimensions);
      FirstRow(words, dimensions, vectors);
    }
  }

  lemma AcceptedBytes(blobs: seq<seq<Byte>>, dimensions: nat, vectors: seq<Vector>)
    requires blobs != [] && dimensions == |blobs[0]| / 2 - HEADER_WORDS && ParseBlock(blobs) == Ok(vectors)
    ensures |vectors| == |blobs| && Fits(vectors, dimensions) && Joined(blobs) == Joined(Payloads(vectors))
  {
    var bytes := Joined(blobs);
    var words := Words(bytes);
    TimesIsProduct(|blobs|, dimensions + HEADER_WORDS);
    var rows := Rows(words, |blobs|, dimensions + HEADER_WORDS);
    assert HeaderOk(rows[0], dimensions);
    AllWordsOfRows(words, rows, dimensions, vectors);
    BytesOfWords(bytes);
    JoinedPayloads(vectors, dimensions);
  }

  lemma RowsRead(vectors: seq<Vector>, dimensions: nat, rows: seq<seq<Word>>)
    requires Fits(vectors, dimensions)
    requires rows == Rows(AllWords(vectors, dimensions), |vectors|, dimensions + HEADER_WORDS)
    ensures forall i :: 0 <= i < |rows| ==> HeaderOk(rows[i], dimensions) && Body(rows[i]) == vectors[i]
  {
    RowsOfAllWords(vectors, dimensions, rows);
    forall i | 0 <= i < |rows| ensures HeaderOk(rows[i], dimensions) && Body(rows[i]) == vectors[i] {
      assert rows[i] == RowWords(vectors[i]);
    }
  }

  lemma Reading(vectors: seq<Vector>, dimensions: nat) returns (words: seq<Word>, rows: seq<seq<Word>>)
    requires Fits(vectors, dimensions)
    ensures words == AllWords(vectors, dimensions) && |words| == Times(|vectors|, dimensions + HEADER_WORDS)
    ensures rows == Rows(words, |vectors|, dimensions + HEADER_WORDS)
    ensures forall i :: 0 <= i < |rows| ==> HeaderOk(rows[i], dimensions) && Body(rows[i]) == vectors[i]
  {
    words := AllWords(vectors, dimensions);
    rows := Rows(words, |vectors|, dimensions + HEADER_WORDS);
    RowsRead(vectors, dimensions, rows);
  }

  lemma ReadBack(bytes: seq<Byte>, words: seq<Word>)
    requires bytes == Bytes(words)
    ensures |bytes| % 2 == 0 && Words(bytes) == words
  {
    WordsOfBytes(words);
  }

  lemma ParseOfWords(blobs: seq<seq<Byte>>, dimensions: nat, words: seq<Word>, rows: seq<seq<Word>>, vectors: seq<Vector>)
    requires blobs != [] && dimensions == |blobs[0]| / 2 - HEADER_WORDS && dimensions >= 1 && |vectors| == |blobs|
    requires |words| == Times(|blobs|, dimensions + HEADER_WORDS) && |Joined(blobs)| % 2 == 0 && Words(Joined(blobs)) == words
    requires rows == Rows(words, |blobs|, dimensions + HEADER_WORDS)
    requires forall i :: 0 <= i < |rows| ==> HeaderOk(rows[i], dimensions) && Body(rows[i]) == vectors[i]
    ensures ParseBlock(blobs) == Ok(vectors)
  {
    TimesIsProduct(|blobs|, dimensions + HEADER_WORDS);
    assert Bodies(rows, dimensions) == vectors;
  }

  lemma BytesAccepted(blobs: seq<seq<Byte>>, dimensions: nat, vectors: seq<Vector>)
    requires blobs != [] && dimensions == |blobs[0]| / 2 - HEADER_WORDS && dimensions >= 1
    requires |vectors| == |blobs| && Fits(vectors, dimensions) && Joined(blobs) == Joined(Payloads(vectors))
    ensures ParseBlock(blobs) == Ok(vectors)
  {
    JoinedPayloads(vectors, dimensions);
    var words, rows := Reading(vectors, dimensions);
    ReadBack(Joined(blobs), words);
    ParseOfWords(blobs, dimensions, words, rows, vectors);
  }

  /** The concatenation, not the cuts between blobs, decides: a block is accepted as these vectors exactly when
      its bytes are those of that many payloads of the first blob's dimensions. */
  lemma ParsesTo(blobs: seq<seq<Byte>>, vectors: seq<Vector>)
    ensures blobs == [] ==> ParseBlock(blobs).IndexError?
    ensures blobs != [] ==> var dimensions := |blobs[0]| / 2 - HEADER_WORDS;
      ParseBlock(blobs) == Ok(vectors) <==>
        dimensions >= 1 && |vectors| == |blobs| && Fits(vectors, dimensions) && Joined(blobs) == Joined(Payloads(vectors))
  {
    if blobs == [] {
      return;
    }
    var dimensions := |blobs[0]| / 2 - HEADER_WORDS;
    if ParseBlock(blobs) == Ok(vectors) {
      AcceptedBytes(blobs, dimensions, vectors);
    }
    if dimensions >= 1 && |vectors| == |blobs| && Fits(vectors, dimensions) && Joined(blobs) == Joined(Payloads(vectors)) {
      BytesAccepted(blobs, dimensions, vectors);
    }
  }

  /** Decoding undoes encoding bit for bit. */
  lemma RoundTrip(vectors: seq<Vector>, dimensions: nat)
    requires vectors != [] && dimensions >= 1 && Fits(vectors, dimensions)
    ensures ParseBlock(Payloads(vectors)) == Ok(vectors)
  {
    ParsesTo(Payloads(vectors), vectors);
  }

  lemma FirstWord(v: Vector)
    requires |v| <= MAX_DIMENSIONS
    ensures |Payload(v)| >= 2 && Pack(Payload(v)[0], Payload(v)[1]) as int == |v|
  {
    PackSplits(|v| as Word);
  }

  lemma PayloadInjective(v: Vector, u: Vector)
    requires |v| <= MAX_DIMENSIONS && |u| <= MAX_DIMENSIONS && Payload(v) == Payload(u)
    ensures v == u
  {
    WordsOfBytes(RowWords(v));
    WordsOfBytes(RowWords(u));
    assert RowWords(v)[2..] == v && RowWords(u)[2..] == u;
  }

  /** A payload at the front of a byte string tells its own length. */
  lemma SameHead(v: Vector, u: Vector, x: seq<Byte>, y: seq<Byte>)
    requires |v| <= MAX_DIMENSIONS && |u| <= MAX_DIMENSIONS && Payload(v) + x == Payload(u) + y
    ensures v == u && x == y
  {
    var p, q := Payload(v), Payload(u);
    FirstWord(v);
    FirstWord(u);
    assert (p + x)[0] == p[0] && (p + x)[1] == p[1] && (q + y)[0] == q[0] && (q + y)[1] == q[1];
    assert |p| == |q|;
    assert p == (p + x)[..|p|] && q == (q + y)[..|p|] && x == (p + x)[|p|..] && y == (q + y)[|p|..];
    PayloadInjective(v, u);
  }

  lemma {:induction false} SameHeads(vs: seq<Vector>, us: seq<Vector>)
    requires |vs| == |us|
    requires forall i :: 0 <= i < |vs| ==> |vs[i]| <= MAX_DIMENSIONS && |us[i]| <= MAX_DIMENSIONS
    requires Joined(Payloads(vs)) == Joined(Payloads(us))
    ensures vs == us
  {
    if vs != [] {
      assert Payloads(vs)[1..] == Payloads(vs[1..]) && Payloads(us)[1..] == Payloads(us[1..]);
      SameHead(vs[0], us[0], Joined(Payloads(vs[1..])), Joined(Payloads(us[1..])));
      SameHeads(vs[1..], us[1..]);
      assert vs == [vs[0]] + vs[1..] && us == [us[0]] + us[1..];
    }
  }

  /** On individually well-formed payloads the parser accepts exactly when all dimensions are equal and not
      zero, and then gives back their vectors. */
  lemma WellFormedBlock(vectors: seq<Vector>)
    requires vectors != [] && forall i :: 0 <= i < |vectors| ==> |vectors[i]| <= MAX_DIMENSIONS
    ensures ParseBlock(Payloads(vectors)).Ok? <==> |vectors[0]| >= 1 && forall i :: 0 <= i < |vectors| ==> |vectors[i]| == |vectors[0]|
    ensures ParseBlock(Payloads(vectors)).Ok? ==> ParseBlock(Payloads(vectors)) == Ok(vectors)
  {
    var blobs := Payloads(vectors);
    if ParseBlock(blobs).Ok? {
      var us := ParseBlock(blobs).vectors;
      ParsesTo(blobs, us);
      SameHeads(vectors, us);
    }
    if |vectors[0]| >= 1 && forall i :: 0 <= i < |vectors| ==> |vectors[i]| == |vectors[0]| {
      RoundTrip(vectors, |vectors[0]|);
    }
  }

  lemma {:induction false} SameCuts(a: seq<seq<Byte>>, b: seq<seq<Byte>>, size: nat)
    requires |a| == |b| && Joined(a) == Joined(b)
    requires forall i :: 0 <= i < |a| ==> |a[i]| == size && |b[i]| == size
    ensures a == b
  {
    if a != [] {
      assert a[0] == Joined(a)[..size] && b[0] == Joined(b)[..size];
      assert Joined(a[1..]) == Joined(a)[size..] && Joined(b[1..]) == Joined(b)[size..];
      SameCuts(a[1..], b[1..], size);
      assert a == [a[0]] + a[1..] && b == [b[0]] + b[1..];
    }
  }

  /** An accepted block's blobs are well-formed payloads exactly when they all have the first one's length. */
  lemma AcceptedBlobs(blobs: seq<seq<Byte>>)
    requires ParseBlock(blobs).Ok?
    ensures var vectors := ParseBlock(blobs).vectors;
      (|vectors| == |blobs| && forall i :: 0 <= i < |vectors| ==> |vectors[i]| <= MAX_DIMENSIONS)
      && (blobs == Payloads(vectors) <==> forall i :: 0 <= i < |blobs| ==> |blobs[i]| == |blobs[0]| && |blobs[i]| % 2 == 0)
  {
    var vectors := ParseBlock(blobs).vectors;
    ParsesTo(blobs, vectors);
    if forall i :: 0 <= i < |blobs| ==> |blobs[i]| == |blobs[0]| && |blobs[i]| % 2 == 0 {
      SameCuts(blobs, Payloads(vectors), |blobs[0]|);
    }
  }

  lemma PayloadEven(v: Vector)
    requires |v| <= MAX_DIMENSIONS
    ensures |Payload(v)| % 2 == 0
  {
  }

  lemma JoinedTwo(a: seq<Byte>, b: seq<Byte>)
    ensures Joined([a, b]) == a + b
  {
    var two: seq<seq<Byte>>, one: seq<seq<Byte>> := [a, b], [b];
    assert two[1..] == one && one[1..] == [];
    assert Joined(one) == b + Joined([]) == b;
    assert Joined(two) == a + Joined(one);
  }

  lemma TwoPayloads(vectors: seq<Vector>)
    requires |vectors| == 2 && |vectors[0]| <= MAX_DIMENSIONS && |vectors[1]| <= MAX_DIMENSIONS
    ensures Joined(Payloads(vectors)) == Payload(vectors[0]) + Payload(vectors[1])
  {
    assert Payloads(vectors) == [Payload(vectors[0]), Payload(vectors[1])];
    JoinedTwo(Payload(vectors[0]), Payload(vectors[1]));
  }

  lemma RecutAccepted(blobs: seq<seq<Byte>>, x: seq<Byte>, y: seq<Byte>, vectors: seq<Vector>)
    requires blobs == [x, y] && |vectors| == 2 && |vectors[0]| == |vectors[1]| == 1
    requires x + y == Payload(vectors[0]) + Payload(vectors[1]) && |x| == 7
    ensures ParseBlock(blobs) == Ok(vectors)
  {
    JoinedTwo(x, y);
    TwoPayloads(vectors);
    assert |blobs[0]| / 2 - HEADER_WORDS == 1 && Fits(vectors, 1);
    BytesAccepted(blobs, 1, vectors);
  }

  /** Two one-dimensional payloads cut in the wrong place, seven bytes and five, are accepted, although neither
      piece is a payload. */
  lemma WrongCutAccepted(x: seq<Byte>, y: seq<Byte>, v: Vector, u: Vector)
    requires |v| == |u| == 1 && x + y == Payload(v) + Payload(u) && |x| == 7
    ensures ParseBlock([x, y]) == Ok([v, u])
    ensures forall w: Vector :: |w| <= MAX_DIMENSIONS ==> x != Payload(w) && y != Payload(w)
  {
    RecutAccepted([x, y], x, y, [v, u]);
    assert |x + y| == 12;
    forall w: Vector | |w| <= MAX_DIMENSIONS ensures x != Payload(w) && y != Payload(w) {
      PayloadEven(w);
    }
  }
}
