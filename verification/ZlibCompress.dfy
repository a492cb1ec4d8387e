/** The zlib compressor of src/import/stb_image_write.h: hash buckets of earlier
    positions, lazy matching, fixed Huffman codes, the stored-block fallback and
    the Adler-32 trailer.  The hash function is a parameter: nothing depends on
    what it returns. */
module ZlibCompress {
  import opened Bits
  import opened Wrappers
  import opened Inflate
  import opened Deflate
  import opened BitOutput
  import opened Stored
  import Adler32

  const ZHASH := 16384
  const WINDOW := 32768

  type Hash = (Byte, Byte, Byte) -> nat

  // ----- match search -----

  /** Length of the common stretch at a and b, at most limit. */
  function MatchLength(data: seq<Byte>, a: nat, b: nat, limit: nat): (m: nat)
    requires a <= b && b + limit <= |data|
    ensures m <= limit
    decreases limit
  {
    if limit == 0 || data[a] != data[b] then 0 else 1 + MatchLength(data, a + 1, b + 1, limit - 1)
  }

  lemma {:induction false} MatchLengthAgrees(data: seq<Byte>, a: nat, b: nat, limit: nat)
    requires a <= b && b + limit <= |data|
    ensures Repeats(data, a, b, MatchLength(data, a, b, limit))
    decreases limit
  {
    if limit != 0 && data[a] == data[b] {
      MatchLengthAgrees(data, a + 1, b + 1, limit - 1);
    }
  }

  lemma {:induction false} MatchLengthEnds(data: seq<Byte>, a: nat, b: nat, limit: nat)
    requires a <= b && b + limit <= |data|
    ensures var m := MatchLength(data, a, b, limit); m < limit ==> data[a + m] != data[b + m]
    decreases limit
  {
    if limit != 0 && data[a] == data[b] {
      MatchLengthEnds(data, a + 1, b + 1, limit - 1);
    }
  }

  /** The longest match the format can express between a and b. */
  function Common(data: seq<Byte>, a: nat, b: nat): (m: nat)
    requires a <= b <= |data|
    ensures m <= 258 && b + m <= |data|
  {
    MatchLength(data, a, b, if |data| - b < 258 then |data| - b else 258)
  }

  /** It agrees, and it ends at the format's limit, at the end or where the bytes differ. */
  lemma CommonMeans(data: seq<Byte>, a: nat, b: nat)
    requires a <= b <= |data|
    ensures var m := Common(data, a, b);
            && Repeats(data, a, b, m)
            && (m == 258 || b + m == |data| || data[a + m] != data[b + m])
  {
    var most := if |data| - b < 258 then |data| - b else 258;
    MatchLengthAgrees(data, a, b, most);
    MatchLengthEnds(data, a, b, most);
    hide MatchLength, Repeats;
  }

  lemma MatchStep(data: seq<Byte>, a: nat, b: nat, limit: nat)
    requires a <= b && b + limit <= |data| && limit > 0
    ensures MatchLength(data, a, b, limit)
            == if data[a] == data[b] then 1 + MatchLength(data, a + 1, b + 1, limit - 1) else 0
  {
  }

  method CountMatch(data: seq<Byte>, a: nat, b: nat, limit: nat) returns (m: nat)
    requires a <= b && b + limit == |data|
    ensures m == Common(data, a, b)
  {
    ghost var most := if limit < 258 then limit else 258;
    assert Common(data, a, b) == MatchLength(data, a, b, most);
    hide MatchLength, Common;
    m := 0;
    while m < limit && m < 258
      invariant 0 <= m <= most
      invariant m + MatchLength(data, a + m, b + m, most - m) == Common(data, a, b)
    {
      MatchStep(data, a + m, b + m, most - m);
      if data[a + m] != data[b + m] {
        break;
      }
      m := m + 1;
    }
  }

  /** Bucket entries lie before the position being compressed. */
  predicate Earlier(bucket: seq<nat>, i: nat) {
    forall k :: 0 <= k < |bucket| ==> bucket[k] < i
  }

  /** The entries of a bucket that a match at i may reach back to. */
  predicate InReach(bucket: seq<nat>, k: int, i: nat) {
    0 <= k < |bucket| && bucket[k] < i && i - bucket[k] < WINDOW
  }

  /** No entry within reach matches more than length bytes at i. */
  ghost predicate NoneLonger(data: seq<Byte>, i: nat, bucket: seq<nat>, length: nat)
    requires i <= |data|
  {
    forall k :: InReach(bucket, k, i) ==> Common(data, bucket[k], i) <= length
  }

  /** Entry k matches at least three bytes at i, no other one more, and no later one as
      many. */
  ghost predicate LastLongest(data: seq<Byte>, i: nat, bucket: seq<nat>, k: int)
    requires i <= |data|
  {
    && InReach(bucket, k, i) && Common(data, bucket[k], i) >= 3
    && NoneLonger(data, i, bucket, Common(data, bucket[k], i))
    && forall j :: InReach(bucket, j, i) && j > k ==> Common(data, bucket[j], i) < Common(data, bucket[k], i)
  }

  /** The match to take at i, if the bucket holds one. */
  method FindMatch(data: seq<Byte>, i: nat, bucket: seq<nat>) returns (best: nat, from: Option<nat>)
    requires i < |data| && Earlier(bucket, i)
    ensures from.None? ==> NoneLonger(data, i, bucket, 2)
    ensures from.Some? ==>
              exists k ::
                LastLongest(data, i, bucket, k) && from.value == bucket[k] && best == Common(data, from.value, i)
  {
    hide Common;
    best, from := 3, None;
    ghost var at: int := 0;
    var j: nat := 0;
    while j < |bucket|
      invariant j <= |bucket|
      invariant LongestUpTo(data, i, bucket, j, if from.Some? then Some(at) else None)
      invariant from.None? ==> best == 3
      invariant from.Some? ==> 0 <= at < |bucket| && from.value == bucket[at] && best == Common(data, from.value, i)
    {
      if bucket[j] as int > i - WINDOW {
        var d := CountMatch(data, bucket[j], i, |data| - i);
        if d >= best {
          best, from := d, Some(bucket[j]);
          at := j;
        }
      }
      j := j + 1;
    }
    assert from.Some? ==> LastLongest(data, i, bucket, at);
  }

  /** What is known of the entries before j. */
  ghost predicate LongestUpTo(data: seq<Byte>, i: nat, bucket: seq<nat>, j: nat, at: Option<int>)
    requires i <= |data|
  {
    match at
    case None => forall k :: k < j && InReach(bucket, k, i) ==> Common(data, bucket[k], i) <= 2
    case Some(a) =>
      && a < j && InReach(bucket, a, i) && Common(data, bucket[a], i) >= 3
      && (forall k :: k < j && InReach(bucket, k, i) ==> Common(data, bucket[k], i) <= Common(data, bucket[a], i))
      && forall k :: a < k < j && InReach(bucket, k, i) ==> Common(data, bucket[k], i) < Common(data, bucket[a], i)
  }

  /** Does the next position have a match longer than best? */
  method NextIsBetter(data: seq<Byte>, i: nat, bucket: seq<nat>, best: nat) returns (better: bool)
    requires i + 1 < |data| && Earlier(bucket, i + 1)
    ensures better <==> !NoneLonger(data, i + 1, bucket, best)
  {
    hide Common;
    var j: nat := 0;
    while j < |bucket|
      invariant j <= |bucket|
      invariant forall k :: k < j && InReach(bucket, k, i + 1) ==> Common(data, bucket[k], i + 1) <= best
    {
      if bucket[j] as int > i - 32767 {
        var e := CountMatch(data, bucket[j], i + 1, |data| - i - 1);
        if e > best {
          assert InReach(bucket, j, i + 1);
          return true;
        }
      }
      j := j + 1;
    }
    return false;
  }

  // ----- writing tokens -----

  method SearchLength(length: nat) returns (j: nat)
    requires 3 <= length <= 258
    ensures j == LengthIndex(length, 0)
  {
    j := 0;
    while LENGTHC[j + 1] <= length
      invariant j < 29 && LENGTHC[j] <= length
      invariant LengthIndex(length, j) == LengthIndex(length, 0)
      decreases 29 - j
    {
      j := j + 1;
    }
  }

  method SearchDistance(distance: nat) returns (j: nat)
    requires 1 <= distance <= 32767
    ensures j == DistanceIndex(distance, 0)
  {
    j := 0;
    while DISTC[j + 1] <= distance
      invariant j < 30 && DISTC[j] <= distance
      invariant DistanceIndex(distance, j) == DistanceIndex(distance, 0)
      decreases 30 - j
    {
      j := j + 1;
    }
  }

  method EmitExtra(output: Output, extra: nat, n: nat)
    requires output.Valid() && output.bitcount < 8 && n <= 13 && extra < Pow2(n)
    modifies output
    ensures output.Valid() && output.bitcount < 8
    ensures output.Stream() == old(output.Stream()) + LowBits(extra, n)
    ensures old(output.bytes) <= output.bytes
  {
    if n != 0 {
      output.Add(extra, n);
    } else {
      assert LowBits(extra, 0) == [];
    }
  }

  method EmitSymbolAndExtra(output: Output, symbol: nat, extra: nat, n: nat)
    requires output.Valid() && output.bitcount < 8 && symbol <= 287 && n <= 13 && extra < Pow2(n)
    modifies output
    ensures output.Valid() && output.bitcount < 8
    ensures output.Stream() == old(output.Stream()) + (SymbolBits(symbol) + LowBits(extra, n))
    ensures old(output.bytes) <= output.bytes
  {
    Assoc(output.Stream(), SymbolBits(symbol), LowBits(extra, n));
    output.AddSymbol(symbol);
    EmitExtra(output, extra, n);
  }

  method EmitCodeAndExtra(output: Output, code: nat, extra: nat, n: nat)
    requires output.Valid() && output.bitcount < 8 && code < Pow2(5) && n <= 13 && extra < Pow2(n)
    modifies output
    ensures output.Valid() && output.bitcount < 8
    ensures output.Stream() == old(output.Stream()) + (Code(code, 5) + LowBits(extra, n))
    ensures old(output.bytes) <= output.bytes
  {
    Assoc(output.Stream(), Code(code, 5), LowBits(extra, n));
    output.AddCode(code, 5);
    EmitExtra(output, extra, n);
  }

  method EmitLength(output: Output, length: nat)
    requires output.Valid() && output.bitcount < 8 && 3 <= length <= 258
    modifies output
    ensures output.Valid() && output.bitcount < 8
    ensures output.Stream() == old(output.Stream()) + LengthBits(length)
    ensures old(output.bytes) <= output.bytes
  {
    hide LengthIndex, LengthBase, SymbolBits, LowBits, BytesToBits, Pow2;
    var j := SearchLength(length);
    LengthTable(j);
    EmitSymbolAndExtra(output, j + 257, length - LENGTHC[j], LENGTHEB[j]);
  }

  method EmitDistance(output: Output, distance: nat)
    requires output.Valid() && output.bitcount < 8 && 1 <= distance <= 32767
    modifies output
    ensures output.Valid() && output.bitcount < 8
    ensures output.Stream() == old(output.Stream()) + DistanceBits(distance)
    ensures old(output.bytes) <= output.bytes
  {
    hide DistanceIndex, DistanceBase, Code, LowBits, BytesToBits, Pow2;
    var j := SearchDistance(distance);
    DistanceTable(j);
    PowTable();
    EmitCodeAndExtra(output, j, distance - DISTC[j], DISTEB[j]);
  }

  /** Writes one literal or match. */
  method Emit(output: Output, t: Token)
    requires output.Valid() && output.bitcount < 8 && Encodable([t])
    modifies output
    ensures output.Valid() && output.bitcount < 8
    ensures Encodable([t]) && output.Stream() == old(output.Stream()) + TokenBits(t)
    ensures old(output.bytes) <= output.bytes
  {
    assert t in [t];
    match t
    case Literal(b) =>
      output.AddSymbol(b);
    case Match(length, distance) =>
      Assoc(output.Stream(), LengthBits(length), DistanceBits(distance));
      EmitLength(output, length);
      EmitDistance(output, distance);
  }

  /** How many bytes of the input a token stands for. */
  function Width(t: Token): nat {
    match t
    case Literal(_) => 1
    case Match(length, _) => length
  }

  /** The token says what the data says at i: the byte there, or a stretch that
      occurred before within the window. */
  predicate Describes(t: Token, data: seq<Byte>, i: nat)
    requires i < |data|
  {
    match t
    case Literal(b) => b == data[i]
    case Match(length, distance) =>
      && 3 <= length <= 258 && 1 <= distance <= 32767
      && distance <= i && i + length <= |data|
      && Repeats(data, i - distance, i, length)
  }

  lemma {:induction false} Append(data: seq<Byte>, i: nat, tokens: seq<Token>, t: Token)
    requires i < |data| && Describes(t, data, i)
    requires Encodable(tokens) && Expand(tokens, []) == Some(data[..i])
    ensures Encodable(tokens + [t]) && i + Width(t) <= |data|
    ensures Expand(tokens + [t], []) == Some(data[..i + Width(t)])
  {
    hide CopyMatch;
    ExpandSnoc(tokens, t, []);
    if t.Match? {
      CopyFromData(data, i - t.distance, i, t.length);
    } else {
      assert data[..i] + [data[i]] == data[..i + 1];
    }
  }

  predicate TableOk(table: seq<seq<nat>>, i: nat, quality: nat) {
    forall h :: 0 <= h < |table| ==> Earlier(table[h], i) && |table[h]| <= 2 * quality
  }

  /** The bucket of the three bytes at i. */
  function Slot(data: seq<Byte>, i: nat, hash: Hash): (h: nat)
    requires i + 2 < |data|
    ensures h < ZHASH
  {
    hash(data[i], data[i + 1], data[i + 2]) % ZHASH
  }

  /** Two positions share a bucket, whatever the hash function, exactly if their next three
      bytes are equal; otherwise this function tells them apart. */
  lemma SlotShared(data: seq<Byte>, i: nat, j: nat) returns (hash: Hash)
    requires i + 2 < |data| && j + 2 < |data|
    ensures data[i..i + 3] == data[j..j + 3] ==> forall any: Hash :: Slot(data, i, any) == Slot(data, j, any)
    ensures data[i..i + 3] != data[j..j + 3] ==> Slot(data, i, hash) != Slot(data, j, hash)
  {
    hash := (a, b, c) => if a == data[i] && b == data[i + 1] && c == data[i + 2] then 1 else 0;
    assert data[i..i + 3] == [data[i], data[i + 1], data[i + 2]];
    assert data[j..j + 3] == [data[j], data[j + 1], data[j + 2]];
  }

  /** A bucket once position i is entered; a full one loses its older half first. */
  function Entered(bucket: seq<nat>, i: nat, quality: nat): seq<nat> {
    (if |bucket| == 2 * quality then bucket[quality..] else bucket) + [i]
  }

  /** The new entry is the last, behind the newest of the old ones: all of them, or half of
      them if the bucket was full. */
  lemma EnteredKeeps(bucket: seq<nat>, i: nat, quality: nat)
    ensures var r := Entered(bucket, i, quality);
            var kept := |r| - 1;
            && kept >= 0 && r[kept] == i && kept <= |bucket|
            && kept == (if |bucket| == 2 * quality then quality else |bucket|)
            && forall k :: 0 <= k < kept ==> r[k] == bucket[|bucket| - kept + k]
  {
  }

  /** The token for position i, given its bucket and that of the next position: a literal
      if the bucket holds no match of three bytes, or the next position matches longer
      than the last longest entry does; else that entry. */
  ghost predicate Picks(data: seq<Byte>, i: nat, bucket: seq<nat>, next: seq<nat>, t: Token)
    requires i + 1 < |data|
  {
    match t
    case Literal(b) =>
      && b == data[i]
      && (|| NoneLonger(data, i, bucket, 2)
          || exists k :: LastLongest(data, i, bucket, k) && !NoneLonger(data, i + 1, next, Common(data, bucket[k], i)))
    case Match(length, distance) =>
      exists k :: && LastLongest(data, i, bucket, k) && distance == i - bucket[k]
                  && length == Common(data, bucket[k], i) && NoneLonger(data, i + 1, next, length)
  }

  /** Only one token is picked. */
  lemma PicksOne(data: seq<Byte>, i: nat, bucket: seq<nat>, next: seq<nat>, t: Token, u: Token)
    requires i + 1 < |data| && Picks(data, i, bucket, next, t) && Picks(data, i, bucket, next, u)
    ensures t == u
  {
    hide Common;
    forall j, k | LastLongest(data, i, bucket, j) && LastLongest(data, i, bucket, k)
      ensures j == k
    {
    }
  }

  /** One step of the main loop: searches position i, enters it into its bucket and
      picks. */
  method Choose(data: seq<Byte>, i: nat, quality: nat, hash: Hash, table: array<seq<nat>>) returns (t: Token)
    requires i + 3 < |data| && quality >= 5 && table.Length == ZHASH && TableOk(table[..], i, quality)
    modifies table
    ensures TableOk(table[..], i + 1, quality)
    ensures table[..] == EnteredAt(old(table[..]), data, i, quality, hash)
    ensures Describes(t, data, i)
    ensures Picks(data, i, old(table[..])[Slot(data, i, hash)], table[..][Slot(data, i + 1, hash)], t)
  {
    var h := Slot(data, i, hash);
    hide Slot, Common;
    assert Earlier(table[..][h], i);
    var best, from := FindMatch(data, i, table[h]);
    if |table[h]| == 2 * quality {
      table[h] := table[h][quality..];
    }
    table[h] := table[h] + [i];
    if from.Some? {
      var next := Slot(data, i + 1, hash);
      assert Earlier(table[..][next], i + 1);
      var better := NextIsBetter(data, i, table[next], best);
      if better {
        return Literal(data[i]);
      }
      CommonMeans(data, from.value, i);
      return Match(best, i - from.value);
    }
    return Literal(data[i]);
  }

  // ----- the tokens of the whole input -----

  /** Where the tokens end. */
  function Span(tokens: seq<Token>): nat {
    if tokens == [] then 0 else Span(tokens[..|tokens| - 1]) + Width(tokens[|tokens| - 1])
  }

  /** The table once position i is entered. */
  function EnteredAt(table: seq<seq<nat>>, data: seq<Byte>, i: nat, quality: nat, hash: Hash): (r: seq<seq<nat>>)
    requires |table| == ZHASH && i + 2 < |data|
    ensures |r| == ZHASH
  {
    var h := Slot(data, i, hash);
    table[h := Entered(table[h], i, quality)]
  }

  /** The table after these tokens: each position at which one of them begins, but the
      last three of the data, was entered into the bucket of its three bytes. */
  function TableAfter(data: seq<Byte>, tokens: seq<Token>, quality: nat, hash: Hash): (table: seq<seq<nat>>)
    ensures |table| == ZHASH
  {
    if tokens == [] then seq(ZHASH, _ => []) else
    var before := tokens[..|tokens| - 1];
    var table := TableAfter(data, before, quality, hash);
    if Span(before) + 3 < |data| then EnteredAt(table, data, Span(before), quality, hash) else table
  }

  /** Token k is the one that the table of the tokens before it makes the search pick, or
      a literal at the last three positions. */
  ghost predicate Picked(data: seq<Byte>, tokens: seq<Token>, k: nat, quality: nat, hash: Hash)
    requires k < |tokens|
  {
    var i := Span(tokens[..k]);
    && i < |data|
    && if i + 3 < |data| then
         Picks(data, i, TableAfter(data, tokens[..k], quality, hash)[Slot(data, i, hash)],
           TableAfter(data, tokens[..k + 1], quality, hash)[Slot(data, i + 1, hash)], tokens[k])
       else tokens[k] == Literal(data[i])
  }

  ghost predicate Greedy(data: seq<Byte>, tokens: seq<Token>, quality: nat, hash: Hash) {
    forall k :: 0 <= k < |tokens| ==> Picked(data, tokens, k, quality, hash)
  }

  lemma PickedPrefix(data: seq<Byte>, tokens: seq<Token>, n: nat, k: nat, quality: nat, hash: Hash)
    requires k < n <= |tokens|
    ensures Picked(data, tokens[..n], k, quality, hash) == Picked(data, tokens, k, quality, hash)
  {
    assert tokens[..n][..k] == tokens[..k] && tokens[..n][..k + 1] == tokens[..k + 1];
  }

  lemma GreedyOneMore(data: seq<Byte>, tokens: seq<Token>, t: Token, quality: nat, hash: Hash)
    requires Greedy(data, tokens, quality, hash)
    requires Picked(data, tokens + [t], |tokens|, quality, hash)
    ensures Greedy(data, tokens + [t], quality, hash)
  {
    hide Picked;
    assert (tokens + [t])[..|tokens|] == tokens;
    forall k | 0 <= k < |tokens|
      ensures Picked(data, tokens + [t], k, quality, hash)
    {
      PickedPrefix(data, tokens + [t], |tokens|, k, quality, hash);
    }
  }

  /** The tokens of the data are determined. */
  lemma {:induction false} GreedyOnce(data: seq<Byte>, a: seq<Token>, b: seq<Token>, n: nat, quality: nat, hash: Hash)
    requires Greedy(data, a, quality, hash) && Greedy(data, b, quality, hash) && n <= |a| && n <= |b|
    ensures a[..n] == b[..n]
    decreases n
  {
    if n > 0 {
      GreedyOnce(data, a, b, n - 1, quality, hash);
      SamePick(data, a, b, n - 1, quality, hash);
      assert a[..n] == a[..n - 1] + [a[n - 1]] && b[..n] == b[..n - 1] + [b[n - 1]];
    }
  }

  lemma {:induction false} SamePick(data: seq<Byte>, a: seq<Token>, b: seq<Token>, k: nat, quality: nat, hash: Hash)
    requires k < |a| && k < |b| && a[..k] == b[..k]
    requires Picked(data, a, k, quality, hash) && Picked(data, b, k, quality, hash)
    ensures a[k] == b[k]
  {
    hide Picks, TableAfter, Slot, EnteredAt, Span;
    var i := Span(a[..k]);
    AfterSame(data, a, k, quality, hash);
    AfterSame(data, b, k, quality, hash);
    if i + 3 < |data| {
      PicksOne(data, i, TableAfter(data, a[..k], quality, hash)[Slot(data, i, hash)],
        TableAfter(data, a[..k + 1], quality, hash)[Slot(data, i + 1, hash)], a[k], b[k]);
    }
  }

  lemma {:induction false} AfterSame(data: seq<Byte>, tokens: seq<Token>, k: nat, quality: nat, hash: Hash)
    requires k < |tokens|
    ensures var i, table := Span(tokens[..k]), TableAfter(data, tokens[..k], quality, hash);
            TableAfter(data, tokens[..k + 1], quality, hash)
            == if i + 3 < |data| then EnteredAt(table, data, i, quality, hash) else table
  {
    assert tokens[..k + 1][..k] == tokens[..k];
  }

  // ----- equal bytes -----

  lemma {:induction false} SpanPrefix(tokens: seq<Token>, k: nat)
    requires k < |tokens|
    ensures Span(tokens[..k + 1]) == Span(tokens[..k]) + Width(tokens[k])
  {
    assert tokens[..k + 1][..k] == tokens[..k];
  }

  predicate AllEqual(data: seq<Byte>) {
    forall i :: 0 < i < |data| ==> data[i] == data[0]
  }

  lemma CommonOfEqual(data: seq<Byte>, a: nat, b: nat)
    requires AllEqual(data) && a <= b <= |data|
    ensures Common(data, a, b) == if |data| - b < 258 then |data| - b else 258
  {
    CommonMeans(data, a, b);
    hide Common;
  }

  /** The bucket that every position is entered into: the last entry is where the last token
      began, as long as one begins before the last three bytes. */
  lemma {:induction false} LastEntry(data: seq<Byte>, tokens: seq<Token>, k: nat, quality: nat, hash: Hash)
    requires AllEqual(data) && |data| > 3 && k <= |tokens| && Span(tokens[..k]) + 3 < |data|
    requires forall j :: 0 <= j < k ==> Width(tokens[j]) >= 1
    ensures var bucket := TableAfter(data, tokens[..k], quality, hash)[Slot(data, 0, hash)];
            if k == 0 then bucket == [] else bucket != [] && bucket[|bucket| - 1] == Span(tokens[..k - 1])
  {
    if k > 0 {
      SpanPrefix(tokens, k - 1);
      AfterSame(data, tokens, k - 1, quality, hash);
      var i := Span(tokens[..k - 1]);
      SlotSame(data, i, hash);
      hide TableAfter, Span, Slot;
    }
  }

  lemma SlotSame(data: seq<Byte>, i: nat, hash: Hash)
    requires AllEqual(data) && i + 2 < |data|
    ensures Slot(data, i, hash) == Slot(data, 0, hash)
  {
  }

  /** With an entry within reach a match is picked, as long as can be. */
  lemma MatchPicked(data: seq<Byte>, i: nat, bucket: seq<nat>, next: seq<nat>, t: Token)
    requires AllEqual(data) && i + 3 < |data| && Picks(data, i, bucket, next, t)
    requires bucket != [] && InReach(bucket, |bucket| - 1, i)
    ensures t.Match? && t.length == if |data| - i < 258 then |data| - i else 258
  {
    hide Common;
    forall k | InReach(bucket, k, i)
      ensures Common(data, bucket[k], i) == if |data| - i < 258 then |data| - i else 258
    {
      CommonOfEqual(data, bucket[k], i);
    }
    forall k | InReach(next, k, i + 1)
      ensures Common(data, next[k], i + 1) <= if |data| - i < 258 then |data| - i else 258
    {
      CommonOfEqual(data, next[k], i + 1);
    }
  }

  /** Of equal bytes the first is a literal and matches follow, all but the last one of the
      greatest length. */
  lemma {:induction false} EqualStep(data: seq<Byte>, tokens: seq<Token>, k: nat, quality: nat, hash: Hash)
    requires AllEqual(data) && Greedy(data, tokens, quality, hash) && k < |tokens|
    requires forall j :: 0 <= j < k ==> 1 <= Width(tokens[j]) <= 258
    requires Span(tokens[..k]) + 3 < |data|
    ensures var i := Span(tokens[..k]);
            if k == 0 then tokens[0].Literal?
            else tokens[k].Match? && tokens[k].length == if |data| - i < 258 then |data| - i else 258
  {
    hide Common, Greedy, Picks, TableAfter, EnteredAt;
    assert Picked(data, tokens, k, quality, hash) by { PickedOf(data, tokens, k, quality, hash); }
    var i := Span(tokens[..k]);
    LastEntry(data, tokens, k, quality, hash);
    SlotSame(data, i, hash);
    var bucket := TableAfter(data, tokens[..k], quality, hash)[Slot(data, i, hash)];
    var next := TableAfter(data, tokens[..k + 1], quality, hash)[Slot(data, i + 1, hash)];
    if k == 0 {
      NothingPicked(data, i, bucket, next, tokens[0]);
    } else {
      SpanPrefix(tokens, k - 1);
      hide Span, Slot, InReach;
      LastInReach(bucket, i, Span(tokens[..k - 1]));
      MatchPicked(data, i, bucket, next, tokens[k]);
    }
  }

  lemma PickedOf(data: seq<Byte>, tokens: seq<Token>, k: nat, quality: nat, hash: Hash)
    requires Greedy(data, tokens, quality, hash) && k < |tokens|
    ensures Picked(data, tokens, k, quality, hash)
  {
    hide Picked;
  }

  lemma LastInReach(bucket: seq<nat>, i: nat, last: nat)
    requires bucket != [] && bucket[|bucket| - 1] == last && last < i <= last + 258
    ensures InReach(bucket, |bucket| - 1, i)
  {
  }

  lemma NothingPicked(data: seq<Byte>, i: nat, bucket: seq<nat>, next: seq<nat>, t: Token)
    requires i + 1 < |data| && Picks(data, i, bucket, next, t) && bucket == []
    ensures t.Literal?
  {
    hide Common;
  }

  /** How many bytes of the data the first k tokens cover: one, and then 258 a match. */
  lemma {:induction false} EqualSpans(data: seq<Byte>, tokens: seq<Token>, k: nat, quality: nat, hash: Hash)
    requires AllEqual(data) && |data| > 3 && Greedy(data, tokens, quality, hash) && k <= |tokens|
    requires k > 0 ==> Span(tokens[..k - 1]) + 3 < |data|
    ensures Span(tokens[..k]) == if k == 0 then 0 else if 258 * k - 257 < |data| then 258 * k - 257 else |data|
    ensures forall j :: 0 <= j < k ==> 1 <= Width(tokens[j]) <= 258
    ensures k > 0 ==> tokens[0].Literal?
    ensures forall j :: 1 <= j < k ==> tokens[j].Match?
    decreases k
  {
    hide Greedy, Picks, TableAfter;
    if k > 0 {
      SpanPrefix(tokens, k - 1);
      if k > 1 {
        SpanPrefix(tokens, k - 2);
      }
      EqualBefore(data, tokens, k, quality, hash);
      EqualSpans(data, tokens, k - 1, quality, hash);
      EqualStep(data, tokens, k - 1, quality, hash);
    }
  }

  /** Positions grow from token to token. */
  lemma {:induction false} EqualBefore(data: seq<Byte>, tokens: seq<Token>, k: nat, quality: nat, hash: Hash)
    requires 0 < k <= |tokens| && Span(tokens[..k - 1]) + 3 < |data|
    ensures k > 1 ==> Span(tokens[..k - 2]) + 3 < |data|
  {
    if k > 1 {
      SpanPrefix(tokens, k - 2);
    }
  }

  /** All of the tokens of equal bytes: one literal, one match for each 258 bytes more or
      what is left of them, and at most three literals. */
  lemma {:induction false} EqualBytes(data: seq<Byte>, tokens: seq<Token>, quality: nat, hash: Hash) returns (m: nat)
    requires AllEqual(data) && |data| >= 4 && Greedy(data, tokens, quality, hash) && Span(tokens) == |data|
    ensures m <= (|data| + 256) / 258 && m + 1 <= |tokens| <= m + 4
    ensures tokens[0].Literal? && forall k :: 1 <= k <= m ==> tokens[k].Match?
    ensures forall k :: m < k < |tokens| ==> tokens[k].Literal?
  {
    hide Greedy, Picks, TableAfter, Picked;
    assert tokens[..|tokens|] == tokens && tokens[..0] == [];
    var k: nat := 0;
    while k < |tokens| && Span(tokens[..k]) + 3 < |data|
      invariant k <= |tokens| && (k > 0 ==> Span(tokens[..k - 1]) + 3 < |data|)
    {
      k := k + 1;
    }
    assert k > 0;
    EqualSpans(data, tokens, k, quality, hash);
    EqualBefore(data, tokens, k, quality, hash);
    EqualSpans(data, tokens, k - 1, quality, hash);
    m := k - 1;
    LiteralsLast(data, tokens, k, quality, hash);
  }

  /** Behind the last position that is searched there are literals only. */
  lemma {:induction false} LiteralsLast(data: seq<Byte>, tokens: seq<Token>, k: nat, quality: nat, hash: Hash)
    requires Greedy(data, tokens, quality, hash) && k <= |tokens| && Span(tokens) == |data| <= Span(tokens[..k]) + 3
    ensures forall j :: k <= j < |tokens| ==> tokens[j].Literal?
    ensures |data| == Span(tokens[..k]) + |tokens| - k
    decreases |tokens| - k
  {
    if k < |tokens| {
      PickedOf(data, tokens, k, quality, hash);
      SpanPrefix(tokens, k);
      hide Greedy, Picks, TableAfter;
      LiteralsLast(data, tokens, k + 1, quality, hash);
    } else {
      assert tokens[..k] == tokens;
    }
  }

  /** The tokens stand for the data before i, and their bits follow what was written. */
  ghost predicate Coded(tokens: seq<Token>, data: seq<Byte>, i: nat, before: seq<bool>, now: seq<bool>) {
    && i <= |data| && Encodable(tokens) && Expand(tokens, []) == Some(data[..i])
    && now == before + StreamBits(tokens)
  }

  lemma CodedNone(data: seq<Byte>, before: seq<bool>)
    ensures Coded([], data, 0, before, before)
  {
    assert before + [] == before;
  }

  lemma CodedOneMore(tokens: seq<Token>, data: seq<Byte>, i: nat, before: seq<bool>, now: seq<bool>, t: Token)
    requires Coded(tokens, data, i, before, now) && i < |data| && Describes(t, data, i)
    ensures Encodable(tokens + [t]) && Coded(tokens + [t], data, i + Width(t), before, now + TokenBits(t))
  {
    hide TokenBits;
    Append(data, i, tokens, t);
    StreamBitsSnoc(tokens, t);
    hide StreamBits, Expand;
    Assoc(before, StreamBits(tokens), TokenBits(t));
  }

  lemma LegalLast(tokens: seq<Token>, t: Token)
    requires Encodable(tokens + [t])
    ensures Encodable([t])
  {
    assert (tokens + [t])[|tokens|] == t;
  }

  /** Writes the token that describes the data at i. */
  method EmitAt(output: Output, t: Token, data: seq<Byte>, i: nat, ghost tokens: seq<Token>, ghost before: seq<bool>)
    requires output.Valid() && output.bitcount < 8
    requires i < |data| && Describes(t, data, i) && Coded(tokens, data, i, before, output.Stream())
    modifies output
    ensures output.Valid() && output.bitcount < 8
    ensures Coded(tokens + [t], data, i + Width(t), before, output.Stream())
    ensures old(output.bytes) <= output.bytes
  {
    CodedOneMore(tokens, data, i, before, output.Stream(), t);
    LegalLast(tokens, t);
    hide TokenBits, BytesToBits, LowBits, Coded, Describes;
    Emit(output, t);
  }

  /** The literal and match codes of the whole input: exactly the tokens that the search
      picks. */
  method CompressBlock(data: seq<Byte>, quality: nat, hash: Hash, output: Output) returns (ghost tokens: seq<Token>)
    requires output.Valid() && output.bitcount < 8 && quality >= 5
    modifies output
    ensures output.Valid() && output.bitcount < 8
    ensures Encodable(tokens) && Expand(tokens, []) == Some(data)
    ensures Span(tokens) == |data| && Greedy(data, tokens, quality, hash)
    ensures output.Stream() == old(output.Stream()) + StreamBits(tokens)
    ensures old(output.bytes) <= output.bytes
  {
    hide BytesToBits, LowBits, Coded, Describes, Expand, StreamBits, TableOk, Greedy, Picks;
    hide TableAfter, Span, EnteredAt;
    ghost var before := output.Stream();
    var table := new seq<nat>[ZHASH](_ => []);
    TableNew(table[..], data, quality, hash);
    CodedNone(data, before);
    tokens := [];
    var i: nat := 0;
    while i + 3 < |data|
      invariant i <= |data| && TableOk(table[..], i, quality) && table[..] == TableAfter(data, tokens, quality, hash)
      invariant i == Span(tokens) && Greedy(data, tokens, quality, hash)
      invariant output.Valid() && output.bitcount < 8 && Coded(tokens, data, i, before, output.Stream())
      invariant old(output.bytes) <= output.bytes
    {
      var t := Choose(data, i, quality, hash, table);
      TableLater(table[..], t, data, i, quality);
      EmitAt(output, t, data, i, tokens, before);
      PickedNow(data, tokens, t, quality, hash);
      tokens := tokens + [t];
      i := i + Width(t);
      CodedBounds(tokens, data, i, before, output.Stream());
    }
    while i < |data|
      invariant i <= |data| <= i + 3
      invariant i == Span(tokens) && Greedy(data, tokens, quality, hash)
      invariant output.Valid() && output.bitcount < 8 && Coded(tokens, data, i, before, output.Stream())
      invariant old(output.bytes) <= output.bytes
    {
      var t := Literal(data[i]);
      LiteralDescribes(data, i);
      EmitAt(output, t, data, i, tokens, before);
      LastPicked(data, tokens, t, quality, hash);
      tokens := tokens + [t];
      i := i + 1;
    }
    CodedAll(tokens, data, before, output.Stream());
  }

  lemma SpanOneMore(tokens: seq<Token>, t: Token)
    ensures Span(tokens + [t]) == Span(tokens) + Width(t)
  {
    assert (tokens + [t])[..|tokens|] == tokens;
  }

  /** One more token that the search picks. */
  lemma PickedNow(data: seq<Byte>, tokens: seq<Token>, t: Token, quality: nat, hash: Hash)
    requires Greedy(data, tokens, quality, hash) && Span(tokens) + 3 < |data|
    requires var i, table := Span(tokens), TableAfter(data, tokens, quality, hash);
             var after := EnteredAt(table, data, i, quality, hash);
             Picks(data, i, table[Slot(data, i, hash)], after[Slot(data, i + 1, hash)], t)
    ensures Greedy(data, tokens + [t], quality, hash) && Span(tokens + [t]) == Span(tokens) + Width(t)
    ensures TableAfter(data, tokens + [t], quality, hash)
            == EnteredAt(TableAfter(data, tokens, quality, hash), data, Span(tokens), quality, hash)
  {
    SpanOneMore(tokens, t);
    var more := tokens + [t];
    assert more[..|tokens|] == tokens && more[..|tokens| + 1] == more;
    AfterSame(data, more, |tokens|, quality, hash);
    hide Picks, TableAfter, Slot, EnteredAt, Greedy, Span;
    assert Picked(data, more, |tokens|, quality, hash);
    GreedyOneMore(data, tokens, t, quality, hash);
  }

  lemma LastPicked(data: seq<Byte>, tokens: seq<Token>, t: Token, quality: nat, hash: Hash)
    requires Greedy(data, tokens, quality, hash) && Span(tokens) < |data| <= Span(tokens) + 3
    requires t == Literal(data[Span(tokens)])
    ensures Greedy(data, tokens + [t], quality, hash) && Span(tokens + [t]) == Span(tokens) + 1
  {
    SpanOneMore(tokens, t);
    var more := tokens + [t];
    assert more[..|tokens|] == tokens;
    hide Picks, TableAfter, Slot, EnteredAt, Greedy, Span;
    assert Picked(data, more, |tokens|, quality, hash);
    GreedyOneMore(data, tokens, t, quality, hash);
  }

  lemma TableNew(table: seq<seq<nat>>, data: seq<Byte>, quality: nat, hash: Hash)
    requires |table| == ZHASH && forall h :: 0 <= h < ZHASH ==> table[h] == []
    ensures TableOk(table, 0, quality) && table == TableAfter(data, [], quality, hash)
    ensures Greedy(data, [], quality, hash) && Span([]) == 0
  {
  }

  lemma TableLater(table: seq<seq<nat>>, t: Token, data: seq<Byte>, i: nat, quality: nat)
    requires i < |data| && Describes(t, data, i) && TableOk(table, i + 1, quality)
    ensures Width(t) >= 1 && TableOk(table, i + Width(t), quality)
  {
  }

  lemma CodedBounds(tokens: seq<Token>, data: seq<Byte>, i: nat, before: seq<bool>, now: seq<bool>)
    requires Coded(tokens, data, i, before, now)
    ensures i <= |data|
  {
  }

  lemma LiteralDescribes(data: seq<Byte>, i: nat)
    requires i < |data|
    ensures Describes(Literal(data[i]), data, i) && Width(Literal(data[i])) == 1
  {
  }

  lemma CodedAll(tokens: seq<Token>, data: seq<Byte>, before: seq<bool>, now: seq<bool>)
    requires Coded(tokens, data, |data|, before, now)
    ensures Encodable(tokens) && Expand(tokens, []) == Some(data) && now == before + StreamBits(tokens)
  {
    assert data[..|data|] == data;
    hide Expand, StreamBits;
  }

  // ----- the whole stream -----

  lemma Regroup(a: seq<bool>, b: seq<bool>, c: seq<bool>, d: seq<bool>, e: seq<bool>, f: seq<bool>)
    ensures a + b + c + d + e + f == a + (b + (c + d + (e + f)))
  {
  }

  lemma RegroupFront(a: seq<bool>, b: seq<bool>, c: seq<bool>, d: seq<bool>, e: seq<bool>, f: seq<bool>)
    ensures a + b + c + d + e + f == a + (b + c + d + e + f)
  {
  }

  /** Decoding a fixed-Huffman block: header bits, tokens, end of block, padding. */
  lemma {:induction false} ReadFixed(tokens: seq<Token>, data: seq<Byte>, zeros: seq<bool>, rest: seq<bool>)
    requires Encodable(tokens) && Expand(tokens, []) == Some(data)
    ensures ReadBlocks(LowBits(1, 1) + LowBits(1, 2) + StreamBits(tokens) + SymbolBits(256) + zeros + rest, [])
            == Some(Body(data, zeros + rest))
  {
    hide ReadFixedBlock, ReadNumber, ReadStoredBlock, LowBits, SymbolBits;
    var codes := StreamBits(tokens) + SymbolBits(256) + (zeros + rest);
    Regroup(LowBits(1, 1), LowBits(1, 2), StreamBits(tokens), SymbolBits(256), zeros, rest);
    assert Pow2(1) == 2 && Pow2(2) == 4 by { PowTable(); }
    ReadNumberOf(1, 1, LowBits(1, 2) + codes);
    ReadNumberOf(1, 2, codes);
    ReadTokens(tokens, zeros + rest, []);
  }

  /** A body that decodes up to less than a byte of padding, between the zlib
      header and the checksum, is a zlib stream. */
  lemma {:induction false} WrapperOk(body: seq<Byte>, data: seq<Byte>, zeros: seq<bool>)
    requires |zeros| < 8
    requires ReadBlocks(BytesToBits(body + Adler32.Trailer(data)), [])
             == Some(Inflate.Body(data, zeros + BytesToBits(Adler32.Trailer(data))))
    ensures Decompress([0x78, 0x5e] + body + Adler32.Trailer(data)) == Some(data)
  {
    hide ReadBlocks, ReadBytes, BytesToBits, Adler32.Trailer;
    var trailer := Adler32.Trailer(data);
    var stream := [0x78, 0x5e] + body + trailer;
    assert stream[2..] == body + trailer;
    var rest := zeros + BytesToBits(trailer);
    assert Align(rest) == BytesToBits(trailer) by {
      assert |rest| == |zeros| + 32;
      assert rest[|zeros|..] == BytesToBits(trailer);
    }
    ReadBytesOf(trailer, []);
    assert BytesToBits(trailer) + [] == BytesToBits(trailer);
  }

  /** Writes one stored block: its five header bytes and its data. */
  method StoreBlock(block: seq<Byte>, final: bool, output: Output)
    requires output.Valid() && |block| <= MAX_STORED && |output.bytes| + 5 + |block| < output.capacity
    modifies output
    ensures output.Valid() && output.capacity >= old(output.capacity)
    ensures output.bytes == old(output.bytes) + StoredBlock(block, final)
  {
    var blockLen: int := |block|;
    output.Push(if final then 1 else 0);
    output.Push(blockLen % 256);
    output.Push(blockLen / 256 % 256);
    output.Push((-blockLen - 1) % 256);
    output.Push((-blockLen - 1) / 256 % 256);
    output.CopyIn(block);
  }

  /** Writes the stored block at j and returns where the next one starts. */
  method StoreOne(data: seq<Byte>, j: nat, output: Output, ghost total: seq<Byte>) returns (next: nat)
    requires output.Valid() && j < |data|
    requires output.bytes + StoredBlocks(data[j..]) == total && |total| < output.capacity
    modifies output
    ensures output.Valid() && output.capacity >= old(output.capacity)
    ensures j < next <= |data|
    ensures next < |data| ==> output.bytes + StoredBlocks(data[next..]) == total
    ensures next == |data| ==> output.bytes == total
  {
    hide StoredBlock, StoredBlocks;
    var blockLen := |data| - j;
    if blockLen > MAX_STORED {
      blockLen := MAX_STORED;
    }
    next := j + blockLen;
    StoredSplit(data[j..]);
    ghost var coded := StoredBlock(data[j..next], next == |data|);
    if next < |data| {
      assert data[j..][..blockLen] == data[j..next] && data[j..][blockLen..] == data[next..];
      assert output.bytes + (coded + StoredBlocks(data[next..])) == output.bytes + coded + StoredBlocks(data[next..]);
    } else {
      assert data[j..] == data[j..next];
    }
    StoreBlock(data[j..next], |data| - j == blockLen, output);
  }

  lemma StoredSplit(data: seq<Byte>)
    ensures |data| <= MAX_STORED ==> StoredBlocks(data) == StoredBlock(data, true)
    ensures |data| > MAX_STORED ==>
              StoredBlocks(data) == StoredBlock(data[..MAX_STORED], false) + StoredBlocks(data[MAX_STORED..])
  {
  }

  /** Replaces the compressed body by stored blocks, inside the allocation the
      longer compressed body had already reached. */
  method StoreInstead(data: seq<Byte>, output: Output)
    requires output.Valid() && |output.bytes| > |data| + 2 + (|data| + 32766) / 32767 * 5
    requires output.bytes[..2] == [0x78, 0x5e]
    modifies output
    ensures output.Valid() && output.bytes == [0x78, 0x5e] + (if data == [] then [] else StoredBlocks(data))
  {
    hide StoredBlock;
    output.Truncate(2);
    ghost var total := [0x78, 0x5e] + StoredBlocks(data);
    if data != [] {
      StoredSize(data);
    }
    var j := 0;
    assert data[0..] == data;
    while j < |data|
      invariant 0 <= j <= |data|
      invariant output.Valid()
      invariant data != [] ==> |total| < output.capacity
      invariant j < |data| ==> output.bytes + StoredBlocks(data[j..]) == total
      invariant j == |data| > 0 ==> output.bytes == total
      invariant data == [] ==> output.bytes == [0x78, 0x5e]
    {
      j := StoreOne(data, j, output, total);
    }
  }

  /** The bits of a finished fixed-Huffman body. */
  ghost predicate FixedBody(body: seq<Byte>, data: seq<Byte>, tokens: seq<Token>, zeros: seq<bool>) {
    && Encodable(tokens) && Expand(tokens, []) == Some(data)
    && |zeros| < 8 && (forall k :: 0 <= k < |zeros| ==> !zeros[k])
    && BytesToBits(body) == LowBits(1, 1) + LowBits(1, 2) + StreamBits(tokens) + SymbolBits(256) + zeros
  }

  lemma FixedBodyOk(body: seq<Byte>, data: seq<Byte>, tokens: seq<Token>, zeros: seq<bool>)
    requires FixedBody(body, data, tokens, zeros)
    ensures Decompress([0x78, 0x5e] + body + Adler32.Trailer(data)) == Some(data)
  {
    hide ReadBlocks, LowBits, BytesToBits, SymbolBits, Decompress, Adler32.Trailer;
    var trailer := Adler32.Trailer(data);
    BytesToBitsConcat(body, trailer);
    ReadFixed(tokens, data, zeros, BytesToBits(trailer));
    WrapperOk(body, data, zeros);
  }

  lemma StoredBodyOk(data: seq<Byte>)
    ensures Decompress([0x78, 0x5e] + StoredBlocks(data) + Adler32.Trailer(data)) == Some(data)
  {
    hide ReadBlocks, BytesToBits, StoredBlocks, Decompress, Adler32.Trailer;
    var trailer := Adler32.Trailer(data);
    ReadAllStored(data, trailer, []);
    assert [] + data == data;
    assert [] + BytesToBits(trailer) == BytesToBits(trailer);
    WrapperOk(StoredBlocks(data), data, []);
  }

  /** Without any block the checksum is read as a truncated stored block. */
  lemma NoBodyFails()
    ensures Decompress([0x78, 0x5e] + Adler32.Trailer([])) == None
  {
    assert Adler32.Trailer([]) == [0, 0, 0, 1];
    var stream: seq<Byte> := [0x78, 0x5e] + [0, 0, 0, 1];
    assert stream[2..] == [0, 0, 0, 1];
    var tail := BytesToBits([0, 0, 1]);
    FirstByte([0], [0, 0, 1]);
    assert [0] + [0, 0, 1] == [0, 0, 0, 1];
    StoredHeader(false, tail);
    assert ReadStoredBlock(LowBits(0, 5) + tail, []) == None;
  }

  /** Everything up to the checksum when no fallback is taken. */
  method CompressFixed(data: seq<Byte>, quality: nat, hash: Hash)
    returns (output: Output, ghost tokens: seq<Token>, ghost zeros: seq<bool>)
    requires quality >= 5
    ensures fresh(output) && output.Valid() && [0x78, 0x5e] <= output.bytes
    ensures FixedBody(output.bytes[2..], data, tokens, zeros)
    ensures Span(tokens) == |data| && Greedy(data, tokens, quality, hash)
  {
    hide BytesToBits, LowBits, StreamBits, SymbolBits, Span, Greedy, Expand, Encodable;
    output := new Output();
    assert output.Stream() == BytesToBits([]) + LowBits(output.bitbuf, 0);
    output.Push(0x78);
    output.Push(0x5e);
    ghost var header := output.Stream();
    assert header == BytesToBits([0x78, 0x5e]) by {
      assert LowBits(output.bitbuf, 0) == [];
      assert output.bytes == [0x78, 0x5e];
    }
    assert Pow2(1) == 2 && Pow2(2) == 4 by { PowTable(); }
    output.Add(1, 1);
    output.Add(1, 2);
    tokens := CompressBlock(data, quality, hash, output);
    output.AddSymbol(256);
    ghost var unpadded := output.Stream();
    output.Pad();
    zeros :| |zeros| < 8 && output.Stream() == unpadded + zeros && forall k :: 0 <= k < |zeros| ==> !zeros[k];
    assert output.Stream() == BytesToBits(output.bytes);
    RegroupFront(header, LowBits(1, 1), LowBits(1, 2), StreamBits(tokens), SymbolBits(256), zeros);
    Cancel(header, output.bytes, LowBits(1, 1) + LowBits(1, 2) + StreamBits(tokens) + SymbolBits(256) + zeros);
  }

  lemma Cancel(header: seq<bool>, bytes: seq<Byte>, bits: seq<bool>)
    requires [0x78, 0x5e] <= bytes && header == BytesToBits([0x78, 0x5e])
    requires BytesToBits(bytes) == header + bits
    ensures BytesToBits(bytes[2..]) == bits
  {
    hide BytesToBits;
    assert bytes == [0x78, 0x5e] + bytes[2..];
    BytesToBitsConcat([0x78, 0x5e], bytes[2..]);
    assert (header + bits)[|header|..] == bits;
    assert (header + BytesToBits(bytes[2..]))[|header|..] == BytesToBits(bytes[2..]);
  }

  /** The whole stream: header, the block of these tokens or, if that is longer, the stored
      blocks of the data, and the checksum. */
  ghost predicate Wrapped(stream: seq<Byte>, data: seq<Byte>, body: seq<Byte>) {
    stream == [0x78, 0x5e]
              + (if |body| <= |data| + (|data| + 32766) / 32767 * 5 then body
                 else if data == [] then [] else StoredBlocks(data))
              + Adler32.Trailer(data)
  }

  /** The compressor: its output decodes to its input exactly when the input is not empty.
      It is made of the tokens that the search picks, or is the input stored as it is
      where that is shorter. */
  method Compress(data: seq<Byte>, quality: int, hash: Hash) returns (stream: seq<Byte>)
    ensures Decompress(stream) == Some(data) <==> data != []
    ensures |stream| <= |data| + 6 + (|data| + 32766) / 32767 * 5
    ensures exists tokens, body, zeros ::
              && Greedy(data, tokens, if quality < 5 then 5 else quality, hash) && Span(tokens) == |data|
              && FixedBody(body, data, tokens, zeros) && Wrapped(stream, data, body)
  {
    hide BytesToBits, Decompress, FixedBody, StoredBlocks, Greedy, Span, Adler32.Trailer;
    var output, tokens, zeros := CompressFixed(data, if quality < 5 then 5 else quality, hash);
    ghost var fixed, body := output.bytes[2..], output.bytes[2..];
    FixedBodyOk(body, data, tokens, zeros);
    EmptyIsLonger(body, data, tokens, zeros);
    if |output.bytes| > |data| + 2 + (|data| + 32766) / 32767 * 5 {
      StoreInstead(data, output);
      body := if data == [] then [] else StoredBlocks(data);
      StoredBodyOk(data);
      NoBodyFails();
      if data != [] { StoredSize(data); }
    }
    assert output.bytes == [0x78, 0x5e] + body;
    assert data != [] ==> Decompress([0x78, 0x5e] + body + Adler32.Trailer(data)) == Some(data);
    assert data == [] ==> [0x78, 0x5e] + body + Adler32.Trailer(data) == [0x78, 0x5e] + Adler32.Trailer([]);
    var s1, s2 := Adler32.Checksum(data);
    PushChecksum(output, s1, s2);
    TrailerIs(data, s1, s2);
    stream := output.bytes;
    assert Wrapped(stream, data, fixed);
  }

  lemma TrailerIs(data: seq<Byte>, s1: nat, s2: nat)
    requires Adler32.Sums(s1, s2) == Adler32.Adler(data)
    ensures Adler32.Trailer(data) == [s2 / 256, s2 % 256, s1 / 256, s1 % 256]
  {
  }

  method PushChecksum(output: Output, s1: nat, s2: nat)
    requires output.Valid() && s1 < 65536 && s2 < 65536
    modifies output
    ensures output.Valid()
    ensures output.bytes == old(output.bytes) + [s2 / 256, s2 % 256, s1 / 256, s1 % 256]
  {
    output.Push(s2 / 256);
    output.Push(s2 % 256);
    output.Push(s1 / 256);
    output.Push(s1 % 256);
  }

  /** Compressing the empty input always takes the fallback. */
  lemma EmptyIsLonger(body: seq<Byte>, data: seq<Byte>, tokens: seq<Token>, zeros: seq<bool>)
    requires FixedBody(body, data, tokens, zeros)
    ensures |body| >= 2
  {
  }
}
