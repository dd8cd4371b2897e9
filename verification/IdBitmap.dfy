/** The 256-bit id bitmap of `message.hpp`: four 64-bit words, encoded by adding a power of two per id. */
module IdBitmap {
  import opened Arith
  import opened Wrappers

  const IDS := 256
  const WORD_BITS := 64

  /** Bit `i` of a word: shift right `i` times and look at the last bit. */
  predicate Bit(x: nat, i: nat) {
    if i == 0 then x % 2 == 1 else Bit(x / 2, i - 1)
  }

  /** It is the binary digit of weight 2^i. */
  lemma {:induction false} BitIsDigit(x: nat, i: nat)
    ensures Pow(2, i) > 0 && (Bit(x, i) <==> (x / Pow(2, i)) % 2 == 1)
  {
    PowPositive(2, i);
    if i > 0 {
      BitIsDigit(x / 2, i - 1);
      assert Pow(2, i) == Pow(2, i - 1) * 2 == 2 * Pow(2, i - 1);
      DivDiv(x, 2, Pow(2, i - 1));
    }
  }

  /** `word += 1 << i`, wrapping at 64 bits. */
  function AddBit(word: nat, i: nat): (r: nat)
    ensures r < Pow(2, WORD_BITS)
  {
    PowPositive(2, WORD_BITS);
    (word + Pow(2, i)) % Pow(2, WORD_BITS)
  }

  predicate IsKey(key: seq<nat>) {
    |key| == 4 && forall w | 0 <= w < 4 :: key[w] < Pow(2, WORD_BITS)
  }

  predicate KeyBit(key: seq<nat>, id: nat)
    requires |key| == 4 && id < IDS
  {
    Bit(key[id / WORD_BITS], id % WORD_BITS)
  }

  /** Adds the bit of `id` to its word, which wraps at 64 bits. */
  function Added(key: seq<nat>, id: nat): (r: seq<nat>)
    requires |key| == 4 && id < IDS
    ensures IsKey(key) ==> IsKey(r)
  {
    var w := id / WORD_BITS;
    key[w := AddBit(key[w], id % WORD_BITS)]
  }

  /** Encoding the ids one after the other; an id beyond the bitmap ends the process. */
  function EncodeAll(key: seq<nat>, ids: seq<nat>): (r: Result<seq<nat>>)
    requires |key| == 4
    ensures r.Ok? ==> |r.value| == 4
    decreases |ids|
  {
    if ids == [] then Ok(key)
    else if ids[0] >= IDS then Fatal
    else EncodeAll(Added(key, ids[0]), ids[1..])
  }

  /** The set positions among `num` positions from `start` on, in cyclic order. */
  function DecodeFrom(key: seq<nat>, start: nat, num: int): (ids: seq<nat>)
    requires |key| == 4 && start < IDS
    ensures |ids| <= if num < 0 then 0 else num
    decreases num
  {
    if num <= 0 then []
    else (if KeyBit(key, start) then [start] else []) + DecodeFrom(key, (start + 1) % IDS, num - 1)
  }

  method Encode(key: array<nat>, id: nat) returns (ok: bool)
    requires key.Length == 4
    modifies key
    ensures ok <==> id < IDS
    ensures key[..] == if ok then Added(old(key[..]), id) else old(key[..])
    ensures forall w | 0 <= w < 4 :: Pow(2, 64) > 0
              && key[w] == if w == id / 64 then (old(key[w]) + Pow(2, id % 64)) % Pow(2, 64) else old(key[w])
  {
    PowPositive(2, 64);
    ok := true;
    if id < 64 {
      key[0] := AddBit(key[0], id);
    } else if 64 <= id < 128 {
      key[1] := AddBit(key[1], id - 64);
    } else if 128 <= id < 192 {
      key[2] := AddBit(key[2], id - 128);
    } else if 192 <= id < 256 {
      key[3] := AddBit(key[3], id - 192);
    } else {
      ok := false;
    }
  }

  /** `decode`'s choice of the word for one position. */
  method TestBit(key: array<nat>, start: nat) returns (processed: bool)
    requires key.Length == 4 && start < IDS
    ensures processed == KeyBit(key[..], start)
    ensures Pow(2, start % 64) > 0 && (processed <==> (key[start / 64] / Pow(2, start % 64)) % 2 == 1)
  {
    BitIsDigit(key[start / 64], start % 64);
    if start < 64 {
      processed := Bit(key[0], start);
    } else if 64 <= start < 128 {
      processed := Bit(key[1], start - 64);
    } else if 128 <= start < 192 {
      processed := Bit(key[2], start - 128);
    } else {
      processed := Bit(key[3], start - 192);
    }
  }

  /** `*id = start; id++` if the bit is set. */
  method Emit(out: array<nat>, next: nat, processed: bool, start: nat) returns (next': nat)
    requires next + (if processed then 1 else 0) <= out.Length
    modifies out
    ensures next' == next + (if processed then 1 else 0)
    ensures out[..next'] == old(out[..next]) + (if processed then [start] else [])
    ensures forall k | next' <= k < out.Length :: out[k] == old(out[k])
  {
    next' := next;
    if processed {
      out[next] := start;
      next' := next + 1;
    }
  }

  /** One position: test it and store it if it is set. */
  method DecodeOne(out: array<nat>, key: array<nat>, next: nat, start: nat, ghost num: int) returns (next': nat)
    requires key.Length == 4 && out != key && start < IDS && num > 0
    requires next + |DecodeFrom(key[..], start, num)| <= out.Length
    modifies out
    ensures next <= next' <= out.Length && next' - next == |DecodeFrom(key[..], start, num)| - |DecodeFrom(key[..], (start + 1) % IDS, num - 1)|
    ensures out[..next'] + DecodeFrom(key[..], (start + 1) % IDS, num - 1) == old(out[..next]) + DecodeFrom(key[..], start, num)
    ensures forall k | next' <= k < out.Length :: out[k] == old(out[k])
  {
    ghost var done, rest := out[..next], DecodeFrom(key[..], (start + 1) % IDS, num - 1);
    var processed := TestBit(key, start);
    next' := Emit(out, next, processed, start);
    Reassociate(done, if processed then [start] else [], rest);
  }

  /** Writes the decoded ids to the front of `out`, which the caller has made long enough. */
  method Decode(out: array<nat>, key: array<nat>, basePos: nat, count: int)
    requires key.Length == 4 && out != key
    requires |DecodeFrom(key[..], basePos % IDS, count)| <= out.Length
    modifies out
    ensures var ids := DecodeFrom(key[..], basePos % IDS, count);
            out[..] == ids + old(out[..])[|ids|..]
  {
    var start: nat, num, next: nat := basePos % IDS, count, 0;
    ghost var all := DecodeFrom(key[..], start, num);
    while num > 0
      invariant start < IDS && next + |DecodeFrom(key[..], start, num)| == |all| <= out.Length
      invariant key[..] == old(key[..]) && out[..next] + DecodeFrom(key[..], start, num) == all
      invariant forall k | next <= k < out.Length :: out[k] == old(out[k])
    {
      next := DecodeOne(out, key, next, start, num);
      num := num - 1;
      start := (start + 1) % IDS;
    }
    assert out[..] == out[..next] + out[next..];
  }

  lemma Reassociate<T>(a: seq<T>, b: seq<T>, c: seq<T>)
    ensures a + (b + c) == (a + b) + c
  {
  }

  // Adding one bit to a word.

  /** Adding a clear bit sets it and leaves the others alone. */
  lemma {:induction false} AddClearBit(x: nat, i: nat, j: nat)
    requires !Bit(x, i)
    ensures Bit(x + Pow(2, i), j) <==> j == i || Bit(x, j)
  {
    if i == 0 {
      assert (x + 1) / 2 == x / 2;
    } else {
      assert (x + Pow(2, i)) / 2 == x / 2 + Pow(2, i - 1);
      if j > 0 {
        AddClearBit(x / 2, i - 1, j - 1);
      }
    }
  }

  /** Adding a clear bit does not overflow. */
  lemma {:induction false} AddClearFits(x: nat, i: nat, bits: nat)
    requires !Bit(x, i) && i < bits && x < Pow(2, bits)
    ensures x + Pow(2, i) < Pow(2, bits)
  {
    var half := Pow(2, bits - 1);
    assert Pow(2, bits) == half * 2;
    if i > 0 {
      var bit := Pow(2, i - 1);
      assert Pow(2, i) == bit * 2;
      assert x / 2 < half;
      AddClearFits(x / 2, i - 1, bits - 1);
      assert x / 2 + bit < half;
    }
  }

  /** Adding a set bit clears it: the carry goes elsewhere. */
  lemma {:induction false} AddSetBit(x: nat, i: nat)
    requires Bit(x, i)
    ensures !Bit(x + Pow(2, i), i)
  {
    if i > 0 {
      assert (x + Pow(2, i)) / 2 == x / 2 + Pow(2, i - 1);
      AddSetBit(x / 2, i - 1);
    }
  }

  /** Dropping the carry out of the word changes no bit of it. */
  lemma {:induction false} DropCarry(x: nat, i: nat, bits: nat)
    requires i < bits && Pow(2, bits) <= x
    ensures Bit(x - Pow(2, bits), i) == Bit(x, i)
  {
    assert (x - Pow(2, bits)) / 2 == x / 2 - Pow(2, bits - 1);
    if i > 0 {
      DropCarry(x / 2, i - 1, bits - 1);
    }
  }

  lemma {:induction false} ZeroBit(i: nat)
    ensures !Bit(0, i)
  {
    if i > 0 {
      ZeroBit(i - 1);
    }
  }

  lemma WrapSmall(y: nat, m: nat)
    requires y < 2 * m
    ensures m > 0 && y % m == if y < m then y else y - m
  {
    if y >= m {
      assert y == 1 * m + (y - m);
      ModOf(1, y - m, m);
    }
  }

  lemma AddBitBits(word: nat, i: nat, j: nat)
    requires word < Pow(2, WORD_BITS) && i < WORD_BITS && j < WORD_BITS
    ensures !Bit(word, i) ==> AddBit(word, i) == word + Pow(2, i) && (Bit(AddBit(word, i), j) <==> j == i || Bit(word, j))
    ensures Bit(word, i) ==> !Bit(AddBit(word, i), i)
  {
    if !Bit(word, i) {
      AddClearFits(word, i, WORD_BITS);
      AddClearBit(word, i, j);
      WrapSmall(word + Pow(2, i), Pow(2, WORD_BITS));
    } else {
      PowGrows(2, i, WORD_BITS);
      AddSetBit(word, i);
      WrapSmall(word + Pow(2, i), Pow(2, WORD_BITS));
      if word + Pow(2, i) >= Pow(2, WORD_BITS) {
        DropCarry(word + Pow(2, i), i, WORD_BITS);
      }
    }
  }

  // The four words together.

  /** Encoding an id not yet in the bitmap adds exactly this id; encoding one that is in it removes it. */
  lemma AddedBits(key: seq<nat>, id: nat, other: nat)
    requires IsKey(key) && id < IDS && other < IDS
    ensures !KeyBit(key, id) ==> (KeyBit(Added(key, id), other) <==> other == id || KeyBit(key, other))
    ensures KeyBit(key, id) ==> !KeyBit(Added(key, id), id)
  {
    AddBitBits(key[id / WORD_BITS], id % WORD_BITS, other % WORD_BITS);
    AddBitBits(key[id / WORD_BITS], id % WORD_BITS, id % WORD_BITS);
  }

  const EMPTY: seq<nat> := [0, 0, 0, 0]

  lemma EmptyKey(id: nat)
    requires id < IDS
    ensures IsKey(EMPTY) && !KeyBit(EMPTY, id)
  {
    PowPositive(2, WORD_BITS);
    ZeroBit(id % WORD_BITS);
  }

  ghost predicate Distinct(ids: seq<nat>) {
    forall i, j | 0 <= i < j < |ids| :: ids[i] != ids[j]
  }

  ghost predicate InRange(ids: seq<nat>) {
    forall i | 0 <= i < |ids| :: ids[i] < IDS
  }

  /** The ids of the bitmap. */
  ghost predicate Holds(key: seq<nat>, ids: seq<nat>) {
    IsKey(key) && forall id: nat | id < IDS :: KeyBit(key, id) <==> id in ids
  }

  lemma {:induction false} EncodeAdds(key: seq<nat>, held: seq<nat>, ids: seq<nat>)
    requires Holds(key, held) && Distinct(held + ids) && InRange(ids)
    ensures EncodeAll(key, ids).Ok? && Holds(EncodeAll(key, ids).value, held + ids)
    decreases |ids|
  {
    if ids == [] {
      assert held + ids == held;
    } else {
      var id := ids[0];
      assert held + ids == (held + [id]) + ids[1..];
      assert (held + ids)[|held|] == id;
      forall i | 0 <= i < |held| ensures held[i] != id {
        assert (held + ids)[i] != (held + ids)[|held|];
      }
      forall other: nat | other < IDS ensures KeyBit(Added(key, id), other) <==> other in held + [id] {
        AddedBits(key, id, other);
      }
      EncodeAdds(Added(key, id), held + [id], ids[1..]);
    }
  }

  /** Distinct ids in any order: the bitmap holds exactly these ids, so no addition carried. */
  lemma EncodeIsSet(ids: seq<nat>)
    requires Distinct(ids) && InRange(ids)
    ensures EncodeAll(EMPTY, ids).Ok? && Holds(EncodeAll(EMPTY, ids).value, ids)
  {
    forall id: nat | id < IDS ensures !KeyBit(EMPTY, id) {
      EmptyKey(id);
    }
    EmptyKey(0);
    assert [] + ids == ids;
    EncodeAdds(EMPTY, [], ids);
  }

  /** The same id twice: the second addition carries, and the id is lost. */
  lemma TwiceIsLost(id: nat)
    requires id < IDS
    ensures EncodeAll(EMPTY, [id, id]).Ok? && !KeyBit(EncodeAll(EMPTY, [id, id]).value, id)
  {
    EmptyKey(id);
    AddedBits(EMPTY, id, id);
    var once := Added(EMPTY, id);
    AddedBits(once, id, id);
    assert [id, id][1..] == [id] && [id][1..] == [];
    assert EncodeAll(EMPTY, [id, id]) == EncodeAll(once, [id]) == Ok(Added(once, id));
  }

  // Encoding and decoding.

  /** How far `id` is after `start` in the cycle of ids. */
  function Ahead(id: nat, start: nat): nat
    requires id < IDS && start < IDS
  {
    (id + IDS - start) % IDS
  }

  /** Ids in cyclic order inside the window of `num` positions from `start` on. */
  ghost predicate InWindow(ids: seq<nat>, start: nat, num: int)
    requires start < IDS
  {
    && InRange(ids)
    && (forall i | 0 <= i < |ids| :: Ahead(ids[i], start) < num)
    && (forall i, j | 0 <= i < j < |ids| :: Ahead(ids[i], start) < Ahead(ids[j], start))
  }

  lemma NextAhead(id: nat, start: nat)
    requires id < IDS && start < IDS
    ensures Ahead(id, start) == 0 <==> id == start
    ensures id != start ==> Ahead(id, (start + 1) % IDS) == Ahead(id, start) - 1
    ensures id == start ==> Ahead(id, (start + 1) % IDS) == IDS - 1
  {
  }

  /** What is decoded is always in order inside the window. */
  lemma {:induction false} DecodedInWindow(key: seq<nat>, start: nat, num: int)
    requires |key| == 4 && start < IDS && num <= IDS
    ensures InWindow(DecodeFrom(key, start, num), start, num)
    decreases num
  {
    if num > 0 {
      var rest := DecodeFrom(key, (start + 1) % IDS, num - 1);
      DecodedInWindow(key, (start + 1) % IDS, num - 1);
      WindowGrows(rest, start, num);
      if KeyBit(key, start) {
        assert DecodeFrom(key, start, num) == [start] + rest;
      } else {
        assert DecodeFrom(key, start, num) == rest;
      }
    }
  }

  lemma WindowGrows(ids: seq<nat>, start: nat, num: int)
    requires start < IDS && 0 < num <= IDS && InWindow(ids, (start + 1) % IDS, num - 1)
    ensures InWindow(ids, start, num) && InWindow([start] + ids, start, num)
  {
    var next := (start + 1) % IDS;
    NextAhead(start, start);
    forall i | 0 <= i < |ids| ensures Ahead(ids[i], start) == Ahead(ids[i], next) + 1 {
      NextAhead(ids[i], start);
    }
    var all := [start] + ids;
    forall i, j | 0 <= i < j < |all| ensures Ahead(all[i], start) < Ahead(all[j], start) {
      assert all[j] == ids[j - 1] && (i > 0 ==> all[i] == ids[i - 1]);
    }
  }

  lemma WindowShrinks(ids: seq<nat>, start: nat, num: int)
    requires start < IDS && 0 < num <= IDS && InWindow(ids, start, num) && start !in ids
    ensures InWindow(ids, (start + 1) % IDS, num - 1)
  {
    forall i | 0 <= i < |ids| ensures Ahead(ids[i], (start + 1) % IDS) == Ahead(ids[i], start) - 1 {
      NextAhead(ids[i], start);
    }
  }

  /** Inside the window the set bits are the ids. */
  ghost predicate WindowHolds(key: seq<nat>, ids: seq<nat>, start: nat, num: int)
    requires |key| == 4 && start < IDS
  {
    forall id: nat | id < IDS && Ahead(id, start) < num :: KeyBit(key, id) <==> id in ids
  }

  /** What is left of the list after the position `start`. */
  lemma OnePosition(key: seq<nat>, ids: seq<nat>, start: nat, num: int) returns (rest: seq<nat>)
    requires |key| == 4 && start < IDS && 0 < num <= IDS && InWindow(ids, start, num) && WindowHolds(key, ids, start, num)
    ensures ids == (if KeyBit(key, start) then [start] else []) + rest
    ensures InWindow(rest, (start + 1) % IDS, num - 1) && WindowHolds(key, rest, (start + 1) % IDS, num - 1)
  {
    NextAhead(start, start);
    assert KeyBit(key, start) <==> start in ids;
    if KeyBit(key, start) {
      FirstIsStart(ids, start, num);
      rest := ids[1..];
      TailInWindow(ids, start, num);
    } else {
      rest := ids;
    }
    WindowShrinks(rest, start, num);
    RestHolds(key, ids, rest, start, num);
  }

  lemma TailInWindow(ids: seq<nat>, start: nat, num: int)
    requires start < IDS && ids != [] && InWindow(ids, start, num)
    ensures InWindow(ids[1..], start, num)
  {
  }

  lemma EmptyWindow(ids: seq<nat>, start: nat, num: int)
    requires start < IDS && num <= 0 && InWindow(ids, start, num)
    ensures ids == []
  {
    if ids != [] {
      FirstAhead(ids, start, num);
      assert false;
    }
  }

  lemma FirstAhead(ids: seq<nat>, start: nat, num: int)
    requires start < IDS && ids != [] && InWindow(ids, start, num)
    ensures 0 <= Ahead(ids[0], start) < num
  {
  }

  lemma {:induction false} DecodeFinds(key: seq<nat>, ids: seq<nat>, start: nat, num: int)
    requires |key| == 4 && start < IDS && num <= IDS && InWindow(ids, start, num) && WindowHolds(key, ids, start, num)
    ensures DecodeFrom(key, start, num) == ids
    decreases num
  {
    if num > 0 {
      var rest := OnePosition(key, ids, start, num);
      DecodeFinds(key, rest, (start + 1) % IDS, num - 1);
    } else {
      EmptyWindow(ids, start, num);
    }
  }

  lemma RestHolds(key: seq<nat>, ids: seq<nat>, rest: seq<nat>, start: nat, num: int)
    requires |key| == 4 && start < IDS && 0 < num <= IDS && (ids == rest || ids == [start] + rest)
    requires WindowHolds(key, ids, start, num)
    ensures WindowHolds(key, rest, (start + 1) % IDS, num - 1)
  {
    forall id: nat | id < IDS && Ahead(id, (start + 1) % IDS) < num - 1 ensures KeyBit(key, id) <==> id in rest {
      NextAhead(id, start);
    }
  }

  lemma FirstIsStart(ids: seq<nat>, start: nat, num: int)
    requires start < IDS && InWindow(ids, start, num) && start in ids
    ensures ids[0] == start && start !in ids[1..]
  {
    var k :| 0 <= k < |ids| && ids[k] == start;
    NextAhead(start, start);
    forall i | 0 <= i < |ids| - 1 ensures ids[1..][i] != start {
      assert Ahead(ids[0], start) < Ahead(ids[i + 1], start);
    }
  }

  /** Encoding one by one and decoding give the list back exactly when it is in cyclic order inside the window. */
  lemma RoundTrip(ids: seq<nat>, basePos: nat, num: int)
    requires num <= IDS
    ensures EncodeAll(EMPTY, ids).Ok? && DecodeFrom(Encoded(ids), basePos % IDS, num) == ids
            <==> InWindow(ids, basePos % IDS, num)
  {
    var start := basePos % IDS;
    if InWindow(ids, start, num) {
      forall i, j | 0 <= i < j < |ids| ensures ids[i] != ids[j] {
        assert Ahead(ids[i], start) < Ahead(ids[j], start);
      }
      EncodeIsSet(ids);
      DecodeFinds(Encoded(ids), ids, start, num);
    } else {
      DecodedInWindow(Encoded(ids), start, num);
    }
  }

  function Encoded(ids: seq<nat>): (key: seq<nat>)
    ensures |key| == 4
  {
    if EncodeAll(EMPTY, ids).Ok? then EncodeAll(EMPTY, ids).value else EMPTY
  }
}
