/**
 Reading a TJS/ns0 pack (tools/inspect_tjs_ns0.py, `Checker`, `Reader`, `load` after
 decryption and decompression): the objects with their running position and seed, proved to
 compute the parser of TjsFormat, and what the checksum protects.
 */
module TjsReader {
  import opened Common
  import opened TjsFormat

  // ---------------------------------------------------------------- dictionaries

  predicate HasKey(dict: seq<Entry>, key: seq<unit>) {
    exists i :: 0 <= i < |dict| && dict[i].key == key
  }

  /** Assigning to a key: an old entry keeps its place, a new one goes to the end. */
  function Put(dict: seq<Entry>, e: Entry): seq<Entry> {
    if dict == [] then [e]
    else if dict[0].key == e.key then [e] + dict[1..]
    else [dict[0]] + Put(dict[1..], e)
  }

  /** The value as a Python object: later entries of a dictionary replace earlier ones. */
  function Normal(v: Value): Value
    decreases v, 0
  {
    match v
    case List(items) => List(NormalItems(items))
    case Dict(pairs) => Dict(Collect([], pairs))
    case _ => v
  }

  function NormalItems(items: seq<Value>): (normal: seq<Value>)
    ensures |normal| == |items|
    decreases items
  {
    if items == [] then [] else [Normal(items[0])] + NormalItems(items[1..])
  }

  function Collect(dict: seq<Entry>, pairs: seq<Entry>): seq<Entry>
    decreases pairs
  {
    if pairs == [] then dict
    else Collect(Put(dict, Entry(pairs[0].key, Normal(pairs[0].value))), pairs[1..])
  }

  /** No dictionary in the tree names a key twice. */
  predicate DistinctKeys(v: Value)
    decreases v
  {
    match v
    case List(items) => forall i | 0 <= i < |items| :: DistinctKeys(items[i])
    case Dict(pairs) =>
      (forall i, j | 0 <= i < j < |pairs| :: pairs[i].key != pairs[j].key) &&
      (forall i | 0 <= i < |pairs| :: DistinctKeys(pairs[i].value))
    case _ => true
  }

  lemma {:induction false} PutNew(dict: seq<Entry>, e: Entry)
    requires !HasKey(dict, e.key)
    ensures Put(dict, e) == dict + [e]
    decreases |dict|
  {
    if dict != [] {
      assert dict[0].key != e.key;
      PutNew(dict[1..], e);
      assert [dict[0]] + (dict[1..] + [e]) == dict + [e];
    }
  }

  /** A tree without repeated keys comes out of Python's dictionaries unchanged. */
  lemma {:induction false} NormalIsIdentity(v: Value)
    requires DistinctKeys(v)
    ensures Normal(v) == v
    decreases v, 0
  {
    match v
    case List(items) => NormalItemsAre(items);
    case Dict(pairs) =>
      CollectDistinct([], pairs);
      assert [] + pairs == pairs;
    case _ =>
  }

  lemma {:induction false} NormalItemsAre(items: seq<Value>)
    requires forall i | 0 <= i < |items| :: DistinctKeys(items[i])
    ensures NormalItems(items) == items
    decreases items
  {
    if items != [] {
      NormalIsIdentity(items[0]);
      NormalItemsAre(items[1..]);
      assert [items[0]] + items[1..] == items;
    }
  }

  lemma {:induction false} CollectDistinct(dict: seq<Entry>, pairs: seq<Entry>)
    requires forall i, j | 0 <= i < j < |pairs| :: pairs[i].key != pairs[j].key
    requires forall i | 0 <= i < |pairs| :: DistinctKeys(pairs[i].value) && !HasKey(dict, pairs[i].key)
    ensures Collect(dict, pairs) == dict + pairs
    decreases pairs
  {
    if pairs == [] {
      assert dict + [] == dict;
    } else {
      var e := pairs[0];
      NormalIsIdentity(e.value);
      assert Entry(e.key, e.value) == e;
      PutNew(dict, e);
      forall i | 0 <= i < |pairs[1..]| ensures !HasKey(dict + [e], pairs[1..][i].key) {
        assert pairs[i + 1].key != e.key && !HasKey(dict, pairs[i + 1].key);
      }
      CollectDistinct(dict + [e], pairs[1..]);
      assert (dict + [e]) + pairs[1..] == dict + pairs;
    }
  }

  function Lookup(dict: seq<Entry>, key: seq<unit>): Option<Value> {
    if dict == [] then None
    else if dict[0].key == key then Some(dict[0].value)
    else Lookup(dict[1..], key)
  }

  /** What the last entry for a key says. */
  function LastValue(pairs: seq<Entry>, key: seq<unit>): Option<Value> {
    if pairs == [] then None
    else if pairs[|pairs| - 1].key == key then Some(Normal(pairs[|pairs| - 1].value))
    else LastValue(pairs[..|pairs| - 1], key)
  }

  function Keys(dict: seq<Entry>): seq<seq<unit>> {
    if dict == [] then [] else [dict[0].key] + Keys(dict[1..])
  }

  /** The keys in the order of their first entries. */
  function FirstKeys(pairs: seq<Entry>): seq<seq<unit>> {
    if pairs == [] then []
    else
      var keys, key := FirstKeys(pairs[..|pairs| - 1]), pairs[|pairs| - 1].key;
      if key in keys then keys else keys + [key]
  }

  lemma {:induction false} PutMeaning(dict: seq<Entry>, e: Entry, key: seq<unit>)
    ensures Lookup(Put(dict, e), key) == if key == e.key then Some(e.value) else Lookup(dict, key)
    ensures Keys(Put(dict, e)) == if e.key in Keys(dict) then Keys(dict) else Keys(dict) + [e.key]
    decreases |dict|
  {
    if dict == [] {
      assert Put(dict, e)[1..] == [];
    } else if dict[0].key == e.key {
      assert Put(dict, e)[1..] == dict[1..];
    } else {
      PutMeaning(dict[1..], e, key);
      assert Put(dict, e)[1..] == Put(dict[1..], e);
      assert [dict[0].key] + (Keys(dict[1..]) + [e.key]) == Keys(dict) + [e.key];
    }
  }

  /** A dictionary holds, for each key, the last of its values, and lists the keys in the order they first came. */
  lemma {:induction false} DictionaryMeaning(pairs: seq<Entry>, key: seq<unit>)
    ensures Lookup(Collect([], pairs), key) == LastValue(pairs, key)
    ensures Keys(Collect([], pairs)) == FirstKeys(pairs)
    decreases |pairs|
  {
    hide Put, Normal;
    if pairs != [] {
      var before, e := pairs[..|pairs| - 1], pairs[|pairs| - 1];
      assert before + [e] == pairs;
      DictionaryMeaning(before, key);
      CollectOneMore([], before, e);
      PutMeaning(Collect([], before), Entry(e.key, Normal(e.value)), key);
    }
  }

  lemma {:induction false} NormalItemAt(items: seq<Value>, i: nat)
    requires i < |items|
    ensures NormalItems(items)[i] == Normal(items[i])
    decreases i
  {
    if i > 0 {
      NormalItemAt(items[1..], i - 1);
    }
  }

  // ---------------------------------------------------------------- the objects

  class Checker {
    var seed: Seed

    constructor (seed: Seed)
      ensures this.seed == Begin(seed)
    {
      this.seed := Seed(seed.b0 ^ seed.b3, seed.b1, seed.b2, seed.b3);
    }

    static method Rnd(data: array<bv8>)
      requires data.Length == 4
      modifies data
      ensures Packed(data[..]) == Round(Packed(old(data[..])))
    {
      hide Mix;
      data[0], data[1], data[2] := data[1], data[2], Mix(data[0], data[2]);
    }

    method Unpacked() returns (data: array<bv8>)
      ensures fresh(data) && data.Length == 4 && Packed(data[..]) == seed
    {
      data := new bv8[4];
      data[0], data[1], data[2], data[3] := seed.b0, seed.b1, seed.b2, seed.b3;
    }

    method Next(kind: byte) returns (check: byte)
      modifies this
      ensures seed == After(old(seed), kind) && check == CheckByte(old(seed), kind)
    {
      var data := Unpacked();
      if kind == 0 {
        return data[2] as int;
      }
      Rnd(data);
      seed := Packed(data[..]);
      check := data[2] as int;
    }

    method Final() returns (bytes: seq<byte>)
      ensures bytes == FinalBytes(seed) + [seed.b3 as int]
    {
      hide Mix;
      var data := Unpacked();
      Rnd(data);
      Rnd(data);
      Rnd(data);
      data[0], data[2] := data[2], data[0];
      bytes := [data[0] as int, data[1] as int, data[2] as int, data[3] as int];
    }
  }

  function Packed(data: seq<bv8>): Seed
    requires |data| == 4
  {
    Seed(data[0], data[1], data[2], data[3])
  }

  class Reader {
    const data: seq<byte>
    const checker: Checker
    var pos: nat

    constructor (data: seq<byte>, checker: Checker)
      ensures this.data == data && this.checker == checker && pos == 0
    {
      this.data := data;
      this.checker := checker;
      pos := 0;
    }

    function Ahead(): seq<byte>
      reads this
      requires pos <= |data|
    {
      data[pos..]
    }

    method Take(size: nat) returns (result: Result<seq<byte>, ReadError>)
      requires pos <= |data|
      modifies this`pos
      ensures pos <= |data|
      ensures if |old(Ahead())| < size then result == Err(Truncated)
              else result == Ok(old(Ahead())[..size]) && Ahead() == old(Ahead())[size..]
    {
      var value := if pos + size <= |data| then data[pos..pos + size] else data[pos..];
      if |value| != size {
        return Err(Truncated);
      }
      assert value == Ahead()[..size];
      pos := pos + size;
      result := Ok(value);
    }

    method U32() returns (result: Result<nat, ReadError>)
      requires pos <= |data|
      modifies this`pos
      ensures pos <= |data|
      ensures if |old(Ahead())| < 4 then result == Err(Truncated)
              else result == Ok(LE(old(Ahead())[..4])) && Ahead() == old(Ahead())[4..]
    {
      var raw := Take(4);
      result := if raw.Err? then Err(raw.error) else Ok(LE(raw.value));
    }

    method String() returns (result: Result<seq<unit>, ReadError>)
      requires pos <= |data|
      modifies this`pos
      ensures pos <= |data|
      ensures match ParseText(old(Ahead()))
              case Err(e) => result == Err(e)
              case Ok((units, rest)) => result == Ok(units) && Ahead() == rest
    {
      var size := U32();
      if size.Err? {
        return Err(size.error);
      }
      var raw := Take(size.value * 2);
      if raw.Err? {
        return Err(raw.error);
      }
      var units := Units(raw.value);
      result := if WellPaired(units) then Ok(units) else Err(BadText);
    }

    method Value(depth: nat) returns (result: Result<Value, ReadError>)
      requires pos <= |data|
      modifies this`pos, checker
      ensures pos <= |data|
      ensures match ParseValue(old(Ahead()), depth, old(checker.seed))
              case Err(e) => result == Err(e)
              case Ok((v, rest, s)) => result == Ok(Normal(v)) && Ahead() == rest && checker.seed == s
      decreases Room(depth), 0, 0
    {
      if depth > 128 {
        return Err(TooDeep);
      }
      var encoded := Take(2);
      if encoded.Err? {
        return Err(encoded.error);
      }
      var kind, check := encoded.value[0], encoded.value[1];
      var expected := checker.Next(kind);
      if check != expected {
        return Err(ByteCheck);
      }
      result := Body(kind, depth);
    }

    method Body(kind: byte, depth: nat) returns (result: Result<Value, ReadError>)
      requires pos <= |data| && depth <= 128
      modifies this`pos, checker
      ensures pos <= |data|
      ensures match ParseBody(old(Ahead()), kind, depth, old(checker.seed))
              case Err(e) => result == Err(e)
              case Ok((v, rest, s)) => result == Ok(Normal(v)) && Ahead() == rest && checker.seed == s
      decreases Room(depth + 1), 2, 0
    {
      hide ParseText, LE, Int64, ParseItems, ParsePairs, NormalItems, Collect, Put;
      if kind == 0 {
        return Ok(Null);
      }
      if kind == 2 {
        var text := String();
        return if text.Err? then Err(text.error) else Ok(Text(text.value));
      }
      if kind == 4 {
        var raw := Take(8);
        return if raw.Err? then Err(raw.error) else Ok(Integer(Int64(raw.value)));
      }
      if kind == 5 {
        var raw := Take(8);
        return if raw.Err? then Err(raw.error) else Ok(Real(raw.value));
      }
      if kind == 0x81 {
        var count := U32();
        if count.Err? {
          return Err(count.error);
        }
        var items := Items(depth + 1, count.value);
        return if items.Err? then Err(items.error) else Ok(List(items.value));
      }
      if kind == 0xC1 {
        var count := U32();
        if count.Err? {
          return Err(count.error);
        }
        var pairs := Pairs(depth + 1, count.value);
        return if pairs.Err? then Err(pairs.error) else Ok(Dict(pairs.value));
      }
      result := Err(UnknownKind(kind));
    }

    /** The list comprehension. */
    method Items(depth: nat, n: nat) returns (result: Result<seq<Value>, ReadError>)
      requires pos <= |data|
      modifies this`pos, checker
      ensures pos <= |data|
      ensures match ParseItems(old(Ahead()), depth, old(checker.seed), n)
              case Err(e) => result == Err(e)
              case Ok((items, rest, s)) => result == Ok(NormalItems(items)) && Ahead() == rest && checker.seed == s
      decreases Room(depth), 1, n
    {
      hide ParseValue, ParseItems, Normal, NormalItems, AppendItems, After, CheckByte;
      var items: seq<Value> := [];
      ghost var read: seq<Value> := [];
      ghost var whole := ParseItems(Ahead(), depth, checker.seed, n);
      ItemsStart(whole);
      for i := 0 to n
        invariant pos <= |data|
        invariant items == NormalItems(read)
        invariant whole == AppendItems(read, ParseItems(Ahead(), depth, checker.seed, n - i))
      {
        ghost var ahead, s := Ahead(), checker.seed;
        ItemsStep(ahead, depth, s, n - i, read);
        var item := Value(depth);
        if item.Err? {
          return Err(item.error);
        }
        ghost var v := ParseValue(ahead, depth, s).value.0;
        NormalItemsOneMore(read, v);
        items, read := items + [item.value], read + [v];
      }
      ItemsEnd(read, Ahead(), depth, checker.seed);
      result := Ok(items);
    }

    /** The dictionary comprehension: the key is read before the value. */
    method Pairs(depth: nat, n: nat) returns (result: Result<seq<Entry>, ReadError>)
      requires pos <= |data|
      modifies this`pos, checker
      ensures pos <= |data|
      ensures match ParsePairs(old(Ahead()), depth, old(checker.seed), n)
              case Err(e) => result == Err(e)
              case Ok((pairs, rest, s)) => result == Ok(Collect([], pairs)) && Ahead() == rest && checker.seed == s
      decreases Room(depth), 1, n
    {
      hide ParseText, ParseValue, ParsePairs, Collect, Put, AppendPairs, After, CheckByte;
      var dict: seq<Entry> := [];
      ghost var read: seq<Entry> := [];
      ghost var whole := ParsePairs(Ahead(), depth, checker.seed, n);
      PairsStart(whole);
      for i := 0 to n
        invariant pos <= |data|
        invariant dict == Collect([], read)
        invariant whole == AppendPairs(read, ParsePairs(Ahead(), depth, checker.seed, n - i))
      {
        PairsFail(Ahead(), depth, checker.seed, n - i, read);
        ghost var before := Ahead();
        var key := String();
        if key.Err? {
          return Err(key.error);
        }
        ghost var ahead, s := Ahead(), checker.seed;
        var item := Value(depth);
        if item.Err? {
          return Err(item.error);
        }
        ghost var e := Entry(key.value, ParseValue(ahead, depth, s).value.0);
        PairsStep(before, depth, s, n - i, read);
        CollectOneMore([], read, e);
        dict, read := Put(dict, Entry(key.value, item.value)), read + [e];
      }
      PairsEnd(read, Ahead(), depth, checker.seed);
      result := Ok(dict);
    }
  }

  function AppendItems(read: seq<Value>, more: Parsed<seq<Value>>): Parsed<seq<Value>> {
    match more
    case Err(e) => Err(e)
    case Ok((items, rest, s)) => Ok((read + items, rest, s))
  }

  function AppendPairs(read: seq<Entry>, more: Parsed<seq<Entry>>): Parsed<seq<Entry>> {
    match more
    case Err(e) => Err(e)
    case Ok((pairs, rest, s)) => Ok((read + pairs, rest, s))
  }

  lemma ItemsStart(more: Parsed<seq<Value>>)
    ensures AppendItems([], more) == more && NormalItems([]) == []
  {
    assert more.Ok? ==> [] + more.value.0 == more.value.0;
  }

  lemma ItemsEnd(read: seq<Value>, data: seq<byte>, depth: nat, s: Seed)
    ensures AppendItems(read, ParseItems(data, depth, s, 0)) == Ok((read, data, s))
  {
    assert read + [] == read;
  }

  lemma PairsStart(more: Parsed<seq<Entry>>)
    ensures AppendPairs([], more) == more && Collect([], []) == []
  {
    assert more.Ok? ==> [] + more.value.0 == more.value.0;
  }

  lemma PairsEnd(read: seq<Entry>, data: seq<byte>, depth: nat, s: Seed)
    ensures AppendPairs(read, ParsePairs(data, depth, s, 0)) == Ok((read, data, s))
  {
    assert read + [] == read;
  }

  lemma ItemsStep(data: seq<byte>, depth: nat, s: Seed, n: nat, read: seq<Value>)
    requires n > 0
    ensures AppendItems(read, ParseItems(data, depth, s, n)) ==
            match ParseValue(data, depth, s)
            case Err(e) => Err(e)
            case Ok((v, rest, s1)) => AppendItems(read + [v], ParseItems(rest, depth, s1, n - 1))
  {
    hide ParseValue;
    if ParseValue(data, depth, s).Ok? {
      var (v, rest, s1) := ParseValue(data, depth, s).value;
      var more := ParseItems(rest, depth, s1, n - 1);
      if more.Ok? {
        Regroup(read, [v], more.value.0);
      }
    }
  }

  lemma {:induction false} NormalItemsOneMore(read: seq<Value>, v: Value)
    ensures NormalItems(read + [v]) == NormalItems(read) + [Normal(v)]
    decreases |read|
  {
    if read != [] {
      assert (read + [v])[1..] == read[1..] + [v];
      NormalItemsOneMore(read[1..], v);
    }
  }

  lemma PairsFail(data: seq<byte>, depth: nat, s: Seed, n: nat, read: seq<Entry>)
    requires n > 0
    ensures ParseText(data).Err? ==> AppendPairs(read, ParsePairs(data, depth, s, n)) == Err(ParseText(data).error)
    ensures ParseText(data).Ok? && ParseValue(ParseText(data).value.1, depth, s).Err? ==>
              AppendPairs(read, ParsePairs(data, depth, s, n)) == Err(ParseValue(ParseText(data).value.1, depth, s).error)
  {
    hide ParseText, ParseValue;
  }

  lemma PairsStep(data: seq<byte>, depth: nat, s: Seed, n: nat, read: seq<Entry>)
    requires n > 0 && ParseText(data).Ok? && ParseValue(ParseText(data).value.1, depth, s).Ok?
    ensures var (key, rest) := ParseText(data).value;
            var (v, rest1, s1) := ParseValue(rest, depth, s).value;
            AppendPairs(read, ParsePairs(data, depth, s, n))
            == AppendPairs(read + [Entry(key, v)], ParsePairs(rest1, depth, s1, n - 1))
  {
    hide ParseText, ParseValue;
    var (key, rest) := ParseText(data).value;
    var (v, rest1, s1) := ParseValue(rest, depth, s).value;
    var more := ParsePairs(rest1, depth, s1, n - 1);
    if more.Ok? {
      assert read + ([Entry(key, v)] + more.value.0) == (read + [Entry(key, v)]) + more.value.0;
    }
  }

  lemma {:induction false} CollectOneMore(dict: seq<Entry>, read: seq<Entry>, e: Entry)
    ensures Collect(dict, read + [e]) == Put(Collect(dict, read), Entry(e.key, Normal(e.value)))
    decreases |read|
  {
    if read != [] {
      assert (read + [e])[1..] == read[1..] + [e];
      CollectOneMore(Put(dict, Entry(read[0].key, Normal(read[0].value))), read[1..], e);
    } else {
      assert (read + [e])[1..] == [];
    }
  }
}
