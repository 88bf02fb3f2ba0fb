/**
 Menu paths of the KiriKiri engine (bridge/krkr2_runtime/src/krkr2_legacy_engine_api.cpp,
 `BuildMainMenuJson`, `AppendMenuJsonNode`, `ParseMenuPath`, `ResolveMenuItemByPath`): the
 paths handed out with the menu, and finding an item again by its path.
 */
module MenuPaths {
  import opened Common

  /**
   A menu item. A child may be a null object, which keeps its index but is not exported, or void,
   which ends the export of its siblings.
   */
  datatype Node = Node(caption: string, children: seq<Slot>)
  datatype Slot = Void | Hole | Item(node: Node)

  // ---------------------------------------------------------------- numbers

  function Digit(d: nat): char
    requires d < 10
  {
    ('0' as int + d) as char
  }

  predicate IsDigit(c: char) { '0' <= c <= '9' }

  function DigitValue(c: char): nat
    requires IsDigit(c)
  {
    c as int - '0' as int
  }

  predicate AllDigits(s: string) { forall i | 0 <= i < |s| :: IsDigit(s[i]) }

  /** `std::to_string` of an index. */
  function Decimal(n: nat): (s: string)
    ensures s != [] && AllDigits(s)
  {
    if n < 10 then [Digit(n)] else Decimal(n / 10) + [Digit(n % 10)]
  }

  function Value(digits: string): nat
    requires AllDigits(digits)
  {
    if digits == [] then 0 else 10 * Value(digits[..|digits| - 1]) + DigitValue(digits[|digits| - 1])
  }

  lemma {:induction false} ValueOfDecimal(n: nat)
    ensures Value(Decimal(n)) == n
    decreases n
  {
    if n >= 10 {
      ValueOfDecimal(n / 10);
      assert Decimal(n)[..|Decimal(n)| - 1] == Decimal(n / 10);
    }
  }

  predicate IsSpace(c: char) { c == ' ' || '\t' <= c <= '\r' }

  function SkipSpace(s: string): string {
    if s != [] && IsSpace(s[0]) then SkipSpace(s[1..]) else s
  }

  /** `strtol` in base 10 on a whole segment: blanks, a sign and digits; too large a number saturates. */
  function ParseLong(part: string): Option<int> {
    var t := SkipSpace(part);
    var negative := t != [] && t[0] == '-';
    var digits := if t != [] && (t[0] == '-' || t[0] == '+') then t[1..] else t;
    if digits == [] || !AllDigits(digits) then None
    else
      var v: int := Value(digits);
      Some(if negative then (if v > 0x8000_0000_0000_0000 then -0x8000_0000_0000_0000 else -v)
           else if v > 0x7FFF_FFFF_FFFF_FFFF then 0x7FFF_FFFF_FFFF_FFFF else v)
  }

  /** The cast from `long` to a 32-bit index. */
  function ToInt32(v: int): int { (v + 0x8000_0000) % 0x1_0000_0000 - 0x8000_0000 }

  function ParseSegment(part: string): Option<int> {
    match ParseLong(part)
    case None => None
    case Some(v) => if v < 0 then None else Some(ToInt32(v))
  }

  lemma LongOfDigits(s: string)
    requires s != [] && AllDigits(s) && Value(s) <= 0x7FFF_FFFF_FFFF_FFFF
    ensures ParseLong(s) == Some(Value(s))
  {
    hide Value;
    assert IsDigit(s[0]);
    assert SkipSpace(s) == s;
  }

  lemma SmallCast(n: nat)
    requires n < 0x8000_0000
    ensures ToInt32(n) == n
  {
  }

  /** A printed index is read back. */
  lemma SegmentOfDecimal(n: nat)
    requires n < 0x8000_0000
    ensures ParseSegment(Decimal(n)) == Some(n)
  {
    hide Decimal, Value, ParseLong, ToInt32;
    ValueOfDecimal(n);
    LongOfDigits(Decimal(n));
    SmallCast(n);
  }

  // ---------------------------------------------------------------- paths

  /** Position of the first slash at or after `start`. */
  function FindSlash(path: string, start: nat): (k: nat)
    requires start <= |path|
    ensures start <= k <= |path|
    ensures k < |path| ==> path[k] == '/'
    ensures forall i | start <= i < k :: path[i] != '/'
    decreases |path| - start
  {
    if start == |path| || path[start] == '/' then start else FindSlash(path, start + 1)
  }

  /** The segments from `start` on; a slash at the very end adds none. */
  function SegmentsFrom(path: string, start: nat): Option<seq<int>>
    requires start <= |path|
    decreases |path| - start
  {
    if start == |path| then Some([])
    else
      var slash := FindSlash(path, start);
      if slash == start then None
      else match ParseSegment(path[start..slash])
        case None => None
        case Some(index) =>
          if slash == |path| then Some([index])
          else match SegmentsFrom(path, slash + 1)
            case None => None
            case Some(rest) => Some([index] + rest)
  }

  function ParsePath(path: string): Option<seq<int>> {
    if path == [] then None else SegmentsFrom(path, 0)
  }

  method ParseMenuPath(path: string) returns (ok: bool, segments: seq<int>)
    ensures ok <==> ParsePath(path).Some?
    ensures ok ==> ParsePath(path) == Some(segments) && segments != []
  {
    hide ParseSegment;
    segments := [];
    if path == [] {
      return false, segments;
    }
    var start := 0;
    Begin(SegmentsFrom(path, 0));
    while start < |path|
      invariant start <= |path| && (start > 0 ==> segments != [])
      invariant SegmentsFrom(path, 0) == Append(segments, SegmentsFrom(path, start))
      decreases |path| - start
    {
      var slash := FindSlash(path, start);
      var part := path[start..slash];
      if part == [] {
        return false, segments;
      }
      var index := ParseSegment(part);
      if index.None? {
        return false, segments;
      }
      if slash == |path| {
        segments := segments + [index.value];
        return true, segments;
      }
      Step(segments, index.value, SegmentsFrom(path, slash + 1));
      segments := segments + [index.value];
      start := slash + 1;
    }
    assert segments + [] == segments;
    ok := segments != [];
  }

  function Append(segments: seq<int>, more: Option<seq<int>>): Option<seq<int>> {
    match more
    case None => None
    case Some(rest) => Some(segments + rest)
  }

  lemma Begin(more: Option<seq<int>>)
    ensures Append([], more) == more
  {
    assert more.Some? ==> [] + more.value == more.value;
  }

  lemma Step(segments: seq<int>, index: int, more: Option<seq<int>>)
    ensures Append(segments, Append([index], more)) == Append(segments + [index], more)
  {
    assert more.Some? ==> segments + ([index] + more.value) == (segments + [index]) + more.value;
  }

  // ---------------------------------------------------------------- exporting

  /** The path of a child: its index, behind the parent's path and a slash. */
  function ChildPath(path: string, index: nat): string {
    if path == [] then Decimal(index) else path + "/" + Decimal(index)
  }

  /** The items exported for the children from index `k` on: each one, then what is below it. */
  function ExportFrom(node: Node, k: nat, path: string): seq<(string, Node)>
    requires k <= |node.children|
    decreases node, |node.children| - k
  {
    if k == |node.children| || node.children[k].Void? then []
    else if node.children[k].Hole? then ExportFrom(node, k + 1, path)
    else
      var child, childPath := node.children[k].node, ChildPath(path, k);
      [(childPath, child)] + ExportFrom(child, 0, childPath) + ExportFrom(node, k + 1, path)
  }

  function Export(root: Node): seq<(string, Node)> { ExportFrom(root, 0, "") }

  /** The loop over the children, for the menu and for every item of it. */
  method AppendChildren(node: Node, path: string, out0: seq<(string, Node)>) returns (out: seq<(string, Node)>)
    ensures out == out0 + ExportFrom(node, 0, path)
    decreases node
  {
    out := out0;
    for index := 0 to |node.children|
      invariant out + ExportFrom(node, index, path) == out0 + ExportFrom(node, 0, path)
    {
      if node.children[index].Void? {
        assert out + [] == out;
        return;
      }
      if node.children[index].Item? {
        ghost var before := out;
        var child, childPath := node.children[index].node, ChildPath(path, index);
        out := out + [(childPath, child)];
        out := AppendChildren(child, childPath, out);
        ghost var below, after := ExportFrom(child, 0, childPath), ExportFrom(node, index + 1, path);
        assert ((before + [(childPath, child)]) + below) + after == before + ([(childPath, child)] + below + after);
      }
    }
  }

  method BuildMainMenu(root: Node) returns (items: seq<(string, Node)>)
    ensures items == Export(root)
  {
    items := AppendChildren(root, "", []);
    assert [] + Export(root) == Export(root);
  }

  // ---------------------------------------------------------------- resolving

  function Resolve(node: Node, segments: seq<int>): Option<Node> {
    if segments == [] then Some(node)
    else if 0 <= segments[0] < |node.children| && node.children[segments[0]].Item? then
      Resolve(node.children[segments[0]].node, segments[1..])
    else None
  }

  method ResolveMenuItemByPath(root: Node, segments: seq<int>) returns (item: Option<Node>)
    ensures item == if segments == [] then None else Resolve(root, segments)
  {
    if segments == [] {
      return None;
    }
    var current := root;
    for i := 0 to |segments|
      invariant Resolve(current, segments[i..]) == Resolve(root, segments)
    {
      assert segments[i..][1..] == segments[i + 1..];
      var segment := segments[i];
      if segment < 0 || segment >= |current.children| || !current.children[segment].Item? {
        return None;
      }
      current := current.children[segment].node;
    }
    item := Some(current);
  }

  // ---------------------------------------------------------------- indices instead of paths

  /** The path spelled by a list of indices. */
  function PathOf(indices: seq<nat>): string {
    if indices == [] then "" else ChildPath(PathOf(indices[..|indices| - 1]), indices[|indices| - 1])
  }

  /** Exported items by their indices. */
  function IndexFrom(node: Node, k: nat, prefix: seq<nat>): seq<(seq<nat>, Node)>
    requires k <= |node.children|
    decreases node, |node.children| - k
  {
    if k == |node.children| || node.children[k].Void? then []
    else if node.children[k].Hole? then IndexFrom(node, k + 1, prefix)
    else
      var child := node.children[k].node;
      [(prefix + [k], child)] + IndexFrom(child, 0, prefix + [k]) + IndexFrom(node, k + 1, prefix)
  }

  function Spelled(entries: seq<(seq<nat>, Node)>): (spelled: seq<(string, Node)>)
    ensures |spelled| == |entries|
    ensures forall i | 0 <= i < |entries| :: spelled[i] == (PathOf(entries[i].0), entries[i].1)
  {
    seq(|entries|, i requires 0 <= i < |entries| => (PathOf(entries[i].0), entries[i].1))
  }

  lemma PathOfChild(prefix: seq<nat>, k: nat)
    ensures PathOf(prefix + [k]) == ChildPath(PathOf(prefix), k)
  {
    assert (prefix + [k])[..|prefix|] == prefix;
  }

  lemma SpelledNothing()
    ensures Spelled([]) == []
  {
  }

  lemma SpelledOne(indices: seq<nat>, node: Node)
    ensures Spelled([(indices, node)]) == [(PathOf(indices), node)]
  {
  }

  lemma SpelledConcat(a: seq<(seq<nat>, Node)>, b: seq<(seq<nat>, Node)>)
    ensures Spelled(a + b) == Spelled(a) + Spelled(b)
  {
  }

  lemma {:induction false} ExportIsSpelled(node: Node, k: nat, prefix: seq<nat>)
    requires k <= |node.children|
    ensures ExportFrom(node, k, PathOf(prefix)) == Spelled(IndexFrom(node, k, prefix))
    decreases node, |node.children| - k
  {
    hide PathOf, ChildPath, Spelled;
    SpelledNothing();
    if k < |node.children| && !node.children[k].Void? {
      ExportIsSpelled(node, k + 1, prefix);
      if node.children[k].Item? {
        var child := node.children[k].node;
        PathOfChild(prefix, k);
        ExportIsSpelled(child, 0, prefix + [k]);
        var first: seq<(seq<nat>, Node)> := [(prefix + [k], child)];
        SpelledOne(prefix + [k], child);
        SpelledConcat(first, IndexFrom(child, 0, prefix + [k]));
        SpelledConcat(first + IndexFrom(child, 0, prefix + [k]), IndexFrom(node, k + 1, prefix));
      }
    }
  }

  // ---------------------------------------------------------------- parsing back

  predicate Indices(ix: seq<nat>) { forall i | 0 <= i < |ix| :: ix[i] < 0x8000_0000 }

  lemma NoSlashInDecimal(n: nat)
    ensures forall i | 0 <= i < |Decimal(n)| :: Decimal(n)[i] != '/'
  {
    forall i | 0 <= i < |Decimal(n)| ensures Decimal(n)[i] != '/' {
      assert IsDigit(Decimal(n)[i]);
    }
  }

  lemma {:induction false} FindSlashSkips(path: string, start: nat, k: nat)
    requires start <= k <= |path| && (forall i | start <= i < k :: path[i] != '/') && (k < |path| ==> path[k] == '/')
    ensures FindSlash(path, start) == k
    decreases k - start
  {
    if start < k {
      FindSlashSkips(path, start + 1, k);
    }
  }

  /** What `SegmentsFrom` does with the segment up to `slash`. */
  function Consed(part: string, last: bool, more: Option<seq<int>>): Option<seq<int>> {
    match ParseSegment(part)
    case None => None
    case Some(index) =>
      if last then Some([index])
      else match more
        case None => None
        case Some(rest) => Some([index] + rest)
  }

  lemma SegmentsUnfold(path: string, start: nat, slash: nat)
    requires start < |path| && slash == FindSlash(path, start)
    ensures SegmentsFrom(path, start) ==
            if slash == start then None
            else Consed(path[start..slash], slash == |path|, if slash < |path| then SegmentsFrom(path, slash + 1) else None)
  {
    hide ParseSegment, FindSlash;
  }

  lemma SlashShift(front: string, back: string, start: nat)
    requires start <= |back|
    ensures FindSlash(front + back, |front| + start) == |front| + FindSlash(back, start)
  {
    FindSlashSkips(front + back, |front| + start, |front| + FindSlash(back, start));
  }

  /** The same segments are read from the end of a path wherever it stands. */
  lemma {:induction false} SegmentsShift(front: string, back: string, start: nat)
    requires start <= |back|
    ensures SegmentsFrom(front + back, |front| + start) == SegmentsFrom(back, start)
    decreases |back| - start
  {
    hide FindSlash, Consed, ParseSegment;
    if start < |back| {
      hide SegmentsFrom;
      var slash := FindSlash(back, start);
      var path := front + back;
      assert |path| == |front| + |back|;
      SlashShift(front, back, start);
      SegmentsUnfold(back, start, slash);
      SegmentsUnfold(path, |front| + start, |front| + slash);
      SliceOfConcat(front, back, start, slash);
      if slash < |back| {
        SegmentsShift(front, back, slash + 1);
        assert |front| + (slash + 1) == |front| + slash + 1;
      }
    }
  }

  lemma SliceOfConcat(front: string, back: string, start: nat, end: nat)
    requires start <= end <= |back|
    ensures (front + back)[|front| + start..|front| + end] == back[start..end]
  {
  }

  /** One more index at the end of a path. */
  lemma {:induction false} SegmentsExtend(path: string, start: nat, n: nat)
    requires n < 0x8000_0000 && start < |path| && path[|path| - 1] != '/'
    requires SegmentsFrom(path, start).Some?
    ensures SegmentsFrom(path + "/" + Decimal(n), start) == Some(SegmentsFrom(path, start).value + [n])
    decreases |path| - start
  {
    hide SegmentsFrom, FindSlash, ParseSegment, Decimal;
    var longer := path + "/" + Decimal(n);
    var slash := FindSlash(path, start);
    LongerPath(path, Decimal(n), start, slash);
    FindSlashSkips(longer, start, slash);
    SegmentsUnfold(path, start, slash);
    SegmentsUnfold(longer, start, slash);
    if slash == |path| {
      SegmentsShift(path + "/", Decimal(n), 0);
      LastSegment(n);
    } else {
      SegmentsExtend(path, slash + 1, n);
      Regroup([ParseSegment(path[start..slash]).value], SegmentsFrom(path, slash + 1).value, [n]);
    }
  }

  lemma LongerPath(path: string, last: string, start: nat, slash: nat)
    requires start <= slash <= |path|
    ensures (path + "/" + last)[start..slash] == path[start..slash]
    ensures forall i | 0 <= i < |path| :: (path + "/" + last)[i] == path[i]
    ensures (path + "/" + last)[|path|] == '/' && |path + "/"| == |path| + 1
  {
  }

  lemma LastSegment(n: nat)
    requires n < 0x8000_0000
    ensures SegmentsFrom(Decimal(n), 0) == Some([n])
  {
    hide ParseSegment, Decimal;
    NoSlashInDecimal(n);
    FindSlashSkips(Decimal(n), 0, |Decimal(n)|);
    SegmentOfDecimal(n);
    assert Decimal(n)[0..|Decimal(n)|] == Decimal(n);
  }

  /** A spelled path parses back to its indices. */
  lemma {:induction false} ParseSpelledPath(ix: seq<nat>)
    requires Indices(ix) && ix != []
    ensures PathOf(ix) != [] && PathOf(ix)[|PathOf(ix)| - 1] != '/'
    ensures ParsePath(PathOf(ix)) == Some(ix)
    decreases |ix|
  {
    hide SegmentsFrom, Decimal;
    var front, last := ix[..|ix| - 1], ix[|ix| - 1];
    NoSlashInDecimal(last);
    if front == [] {
      LastSegment(last);
      assert ix == [last];
    } else {
      ParseSpelledPath(front);
      SegmentsExtend(PathOf(front), 0, last);
      assert front + [last] == ix;
    }
  }

  predicate NoSlash(part: string) { forall i | 0 <= i < |part| :: part[i] != '/' }

  /**
   What a path means, segment by segment: the last one may be missing behind a slash, no other one may be
   empty, and each has to be a number.
   */
  lemma FirstSegment(part: string, rest: string)
    requires NoSlash(part)
    ensures SegmentsFrom("", 0) == Some([])
    ensures SegmentsFrom(part + "/" + rest, 0) ==
              if part == "" || ParseSegment(part).None? || SegmentsFrom(rest, 0).None? then None
              else Some([ParseSegment(part).value] + SegmentsFrom(rest, 0).value)
    ensures part != "" ==>
              SegmentsFrom(part, 0) == if ParseSegment(part).None? then None else Some([ParseSegment(part).value])
  {
    hide ParseSegment, FindSlash;
    var path := part + "/" + rest;
    FindSlashSkips(path, 0, |part|);
    FindSlashSkips(part, 0, |part|);
    SegmentsUnfold(path, 0, |part|);
    assert path[0..|part|] == part && part[0..|part|] == part;
    SegmentsShift(part + "/", rest, 0);
    assert |part + "/"| == |part| + 1;
  }

  predicate Blank(s: string) { forall i | 0 <= i < |s| :: s[i] in {' ', '\t', '\n', '\U{0B}', '\U{0C}', '\r'} }

  lemma {:induction false} SkipBlanks(blanks: string, rest: string)
    requires Blank(blanks) && (rest != [] ==> !IsSpace(rest[0]))
    ensures SkipSpace(blanks + rest) == rest
    decreases |blanks|
  {
    if blanks == [] {
      assert blanks + rest == rest;
    } else {
      assert (blanks + rest)[1..] == blanks[1..] + rest;
      SkipBlanks(blanks[1..], rest);
    }
  }

  lemma {:induction false} BlanksBefore(s: string) returns (blanks: string)
    ensures Blank(blanks) && s == blanks + SkipSpace(s) && (SkipSpace(s) != [] ==> !IsSpace(SkipSpace(s)[0]))
    decreases |s|
  {
    blanks := [];
    if s != [] && IsSpace(s[0]) {
      var more := BlanksBefore(s[1..]);
      blanks := [s[0]] + more;
    }
  }

  /** Blanks, a sign or none, and digits: the number, as far as 64 bits hold it. */
  lemma LongIsRead(blanks: string, sign: string, digits: string)
    requires Blank(blanks) && sign in {"", "+", "-"} && digits != [] && AllDigits(digits)
    ensures ParseLong(blanks + sign + digits) ==
              var v: int := Value(digits);
              if sign == "-" then Some(if v > 0x8000_0000_0000_0000 then -0x8000_0000_0000_0000 else -v)
              else Some(if v > 0x7FFF_FFFF_FFFF_FFFF then 0x7FFF_FFFF_FFFF_FFFF else v)
  {
    hide Value;
    var t := sign + digits;
    assert IsDigit(digits[0]);
    assert blanks + sign + digits == blanks + t;
    SkipBlanks(blanks, t);
    if sign == "" {
      assert t == digits;
    } else {
      assert t[1..] == digits;
    }
  }

  /** Nothing else is a number. */
  lemma LongIsOnlyRead(part: string) returns (blanks: string, sign: string, digits: string)
    requires ParseLong(part).Some?
    ensures Blank(blanks) && sign in {"", "+", "-"} && digits != [] && AllDigits(digits) && part == blanks + sign + digits
  {
    hide *;
    DigitsBehind(part);
    blanks := BlanksBefore(part);
    sign, digits := SignBefore(SkipSpace(part));
    assert blanks + sign + digits == blanks + (sign + digits);
  }

  lemma DigitsBehind(part: string)
    requires ParseLong(part).Some?
    ensures var t := SkipSpace(part);
            t != [] && var digits := if t[0] == '-' || t[0] == '+' then t[1..] else t;
                       digits != [] && AllDigits(digits)
  {
    hide SkipSpace, Value;
  }

  lemma SignBefore(t: string) returns (sign: string, digits: string)
    requires t != []
    ensures sign in {"", "+", "-"} && t == sign + digits && digits == if t[0] == '-' || t[0] == '+' then t[1..] else t
  {
    sign := if t[0] == '-' then "-" else if t[0] == '+' then "+" else "";
    digits := t[|sign|..];
  }

  /** A segment is the index only if it is not negative; the cast keeps its lowest 32 bits. */
  lemma SegmentIsIndex(part: string)
    ensures ParseSegment(part).Some? <==> ParseLong(part).Some? && ParseLong(part).value >= 0
    ensures ParseSegment(part).Some? ==>
              var index := ParseSegment(part).value;
              -0x8000_0000 <= index < 0x8000_0000 && (ParseLong(part).value - index) % 0x1_0000_0000 == 0
  {
    hide ParseLong;
  }

  /** The decimal digits count ten, hundred and so on. */
  lemma {:induction false} ValueIsDecimal(digits: string, c: char)
    requires AllDigits(digits) && IsDigit(c)
    ensures Value("0") == 0 && Value("1") == 1 && Value("9") == 9 && Value("10") == 10 && Value("42") == 42
    ensures Value(digits + [c]) == 10 * Value(digits) + Value([c])
  {
    assert (digits + [c])[..|digits|] == digits;
    assert "10"[..1] == "1" && "42"[..1] == "4";
  }

  // ---------------------------------------------------------------- main results

  /** No item has more children than a 32-bit index can count. */
  predicate Small(node: Node)
    decreases node
  {
    |node.children| <= 0x8000_0000 &&
    forall i | 0 <= i < |node.children| && node.children[i].Item? :: Small(node.children[i].node)
  }

  /** No void stands before the index list leads past it, at any level; at the first, from child `k` on. */
  predicate VisibleFrom(node: Node, k: nat, ix: seq<nat>)
    decreases node
  {
    ix == [] ||
    (ix[0] < |node.children| && node.children[ix[0]].Item? &&
     (forall i | k <= i < ix[0] :: !node.children[i].Void?) &&
     VisibleFrom(node.children[ix[0]].node, 0, ix[1..]))
  }

  /** Entries found below `prefix`: their indices lead from there to the very node, past no void. */
  lemma {:induction false} EntriesResolve(node: Node, k: nat, prefix: seq<nat>, i: nat)
    requires Small(node) && k <= |node.children| && i < |IndexFrom(node, k, prefix)|
    ensures var (ix, item) := IndexFrom(node, k, prefix)[i];
            prefix <= ix && |prefix| < |ix| && ix[|prefix|] >= k && Indices(ix[|prefix|..]) &&
            Resolve(node, ix[|prefix|..]) == Some(item) && VisibleFrom(node, k, ix[|prefix|..])
    decreases node, |node.children| - k
  {
    if node.children[k].Hole? {
      EntriesResolve(node, k + 1, prefix, i);
    } else {
      var child := node.children[k].node;
      var below := IndexFrom(child, 0, prefix + [k]);
      var ix := IndexFrom(node, k, prefix)[i].0;
      if i == 0 {
        assert ix[|prefix|..] == [k];
      } else if i <= |below| {
        EntriesResolve(child, 0, prefix + [k], i - 1);
        assert ix == below[i - 1].0;
        assert ix[|prefix|] == (prefix + [k])[|prefix|] == k;
        assert ix[|prefix|..] == [k] + ix[|prefix| + 1..];
      } else {
        EntriesResolve(node, k + 1, prefix, i - 1 - |below|);
      }
    }
  }

  /** Every exported path parses, and resolves to the item it was exported for. */
  lemma ExportedPathsResolve(root: Node, i: nat)
    requires Small(root) && i < |Export(root)|
    ensures var (path, item) := Export(root)[i];
            ParsePath(path).Some? && ParsePath(path).value != [] &&
            Resolve(root, ParsePath(path).value) == Some(item)
  {
    ExportIsSpelled(root, 0, []);
    EntriesResolve(root, 0, [], i);
    var ix := IndexFrom(root, 0, [])[i].0;
    assert ix[0..] == ix;
    ParseSpelledPath(ix);
  }

  /** What can be resolved without passing a void has been exported, under the path of its indices. */
  lemma {:induction false} VisibleIsIndexed(node: Node, k: nat, prefix: seq<nat>, ix: seq<nat>)
    requires k <= |node.children| && ix != [] && ix[0] >= k && Resolve(node, ix).Some? && VisibleFrom(node, k, ix)
    ensures (prefix + ix, Resolve(node, ix).value) in IndexFrom(node, k, prefix)
    decreases node, |node.children| - k
  {
    if ix[0] > k {
      VisibleIsIndexed(node, k + 1, prefix, ix);
    } else {
      var child := node.children[k].node;
      if |ix| == 1 {
        assert ix == [k] && Resolve(child, ix[1..]) == Some(child);
      } else {
        VisibleIsIndexed(child, 0, prefix + [k], ix[1..]);
        assert (prefix + [k]) + ix[1..] == prefix + ix;
      }
    }
  }

  lemma {:induction false} ResolvableIsSmall(node: Node, ix: seq<nat>)
    requires Small(node) && Resolve(node, ix).Some?
    ensures Indices(ix)
    decreases node
  {
    if ix != [] {
      ResolvableIsSmall(node.children[ix[0]].node, ix[1..]);
      assert ix == [ix[0]] + ix[1..];
    }
  }

  /** An item that can be resolved has been exported under that path if and only if no void comes before it at any level. */
  lemma ResolvableIsExportedIff(root: Node, ix: seq<nat>)
    requires Small(root) && ix != [] && Resolve(root, ix).Some?
    ensures (PathOf(ix), Resolve(root, ix).value) in Export(root) <==> VisibleFrom(root, 0, ix)
  {
    hide Resolve, VisibleFrom, PathOf, Small, IndexFrom, ExportFrom, ParsePath;
    var entries, item := IndexFrom(root, 0, []), Resolve(root, ix).value;
    ExportIsSpelled(root, 0, []);
    EmptyPath();
    assert Export(root) == Spelled(entries);
    if VisibleFrom(root, 0, ix) {
      VisibleIsIndexed(root, 0, [], ix);
      assert [] + ix == ix;
      var i :| 0 <= i < |entries| && entries[i] == (ix, item);
      assert Spelled(entries)[i] == (PathOf(ix), item);
    }
    if (PathOf(ix), item) in Export(root) {
      var i :| 0 <= i < |entries| && Spelled(entries)[i] == (PathOf(ix), item);
      EntriesResolve(root, 0, [], i);
      assert entries[i].0[0..] == entries[i].0;
      ParseSpelledPath(entries[i].0);
      ResolvableIsSmall(root, ix);
      ParseSpelledPath(ix);
    }
  }

  lemma EmptyPath()
    ensures PathOf([]) == ""
  {
  }

  /** Such items do exist: behind a void, an item resolves that was never exported. */
  lemma HiddenBehindVoid(item: Node)
    requires Small(item)
    ensures
      var root := Node("", [Item(item), Void, Item(item)]);
      Resolve(root, [2]) == Some(item) && (PathOf([2]), item) !in Export(root)
  {
    var root := Node("", [Item(item), Void, Item(item)]);
    assert [2][1..] == [];
    assert root.children[1].Void?;
    ResolvableIsExportedIff(root, [2]);
  }

  /** Menu order: an item before those below it, and all of these before its next sibling. */
  predicate Precedes(a: seq<int>, b: seq<int>) {
    b != [] && (a == [] || a[0] < b[0] || (a[0] == b[0] && Precedes(a[1..], b[1..])))
  }

  lemma {:induction false} NothingPrecedesItself(a: seq<int>)
    ensures !Precedes(a, a)
    decreases |a|
  {
    if a != [] {
      NothingPrecedesItself(a[1..]);
    }
  }

  lemma EntryBelow(node: Node, k: nat, prefix: seq<nat>, i: nat)
    requires Small(node) && k < |node.children| && node.children[k].Item?
    requires i <= |IndexFrom(node.children[k].node, 0, prefix + [k])|
    ensures var ix := IndexFrom(node, k, prefix)[i].0;
            |prefix| < |ix| && ix[|prefix|] == k
  {
    var child := node.children[k].node;
    if i > 0 {
      EntriesResolve(child, 0, prefix + [k], i - 1);
      var ix := IndexFrom(node, k, prefix)[i].0;
      assert ix == IndexFrom(child, 0, prefix + [k])[i - 1].0;
      assert ix[|prefix|] == (prefix + [k])[|prefix|];
    }
  }

  /** Entries come in menu order. */
  lemma {:induction false} EntriesInOrder(node: Node, k: nat, prefix: seq<nat>, i: nat, j: nat)
    requires Small(node) && k <= |node.children| && i < j < |IndexFrom(node, k, prefix)|
    ensures var a, b := IndexFrom(node, k, prefix)[i].0, IndexFrom(node, k, prefix)[j].0;
            |prefix| <= |a| && |prefix| <= |b| && Precedes(a[|prefix|..], b[|prefix|..])
    decreases node, |node.children| - k
  {
    hide Precedes, Small, Resolve, VisibleFrom;
    if node.children[k].Hole? {
      EntriesInOrder(node, k + 1, prefix, i, j);
    } else {
      var child := ChildIsSmall(node, k);
      var below := IndexFrom(child, 0, prefix + [k]);
      EntryBelow(node, k, prefix, if i <= |below| then i else 0);
      EntryBelow(node, k, prefix, if j <= |below| then j else 0);
      if i > |below| {
        EntriesInOrder(node, k + 1, prefix, i - 1 - |below|, j - 1 - |below|);
      } else if j > |below| {
        EntriesResolve(node, k + 1, prefix, j - 1 - |below|);
        EarlierChild(IndexFrom(node, k, prefix)[i].0[|prefix|..], IndexFrom(node, k, prefix)[j].0[|prefix|..]);
      } else if i > 0 {
        EntriesInOrder(child, 0, prefix + [k], i - 1, j - 1);
        SameChild(below[i - 1].0, below[j - 1].0, |prefix|);
      } else {
        EntriesResolve(child, 0, prefix + [k], j - 1);
        ParentFirst(below[j - 1].0, prefix, k);
      }
    }
  }

  lemma ChildIsSmall(node: Node, k: nat) returns (child: Node)
    requires Small(node) && k < |node.children| && node.children[k].Item?
    ensures child == node.children[k].node && Small(child)
  {
    child := node.children[k].node;
  }

  lemma EarlierChild(a: seq<int>, b: seq<int>)
    requires a != [] && b != [] && a[0] < b[0]
    ensures Precedes(a, b)
  {
  }

  lemma SameChild(a: seq<int>, b: seq<int>, n: nat)
    requires n < |a| && n < |b| && a[n] == b[n] && Precedes(a[n + 1..], b[n + 1..])
    ensures Precedes(a[n..], b[n..])
  {
    assert a[n..][1..] == a[n + 1..] && b[n..][1..] == b[n + 1..];
  }

  lemma ParentFirst(b: seq<int>, prefix: seq<int>, k: int)
    requires prefix + [k] <= b && |b| > |prefix| + 1
    ensures Precedes((prefix + [k])[|prefix|..], b[|prefix|..])
  {
    var a, c := (prefix + [k])[|prefix|..], b[|prefix|..];
    assert a == [k] && c[0] == (prefix + [k])[|prefix|] && a[1..] == [];
  }

  /** The exported items stand in menu order; in particular all their paths are different. */
  lemma ExportedInOrder(root: Node, i: nat, j: nat)
    requires Small(root) && i < j < |Export(root)|
    ensures ParsePath(Export(root)[i].0).Some? && ParsePath(Export(root)[j].0).Some?
    ensures Precedes(ParsePath(Export(root)[i].0).value, ParsePath(Export(root)[j].0).value)
    ensures Export(root)[i].0 != Export(root)[j].0
  {
    hide Precedes, ParsePath, Resolve, VisibleFrom;
    ExportIsSpelled(root, 0, []);
    var entries := IndexFrom(root, 0, []);
    EntriesInOrder(root, 0, [], i, j);
    EntriesResolve(root, 0, [], i);
    EntriesResolve(root, 0, [], j);
    assert entries[i].0[0..] == entries[i].0 && entries[j].0[0..] == entries[j].0;
    ParseSpelledPath(entries[i].0);
    ParseSpelledPath(entries[j].0);
    NothingPrecedesItself(entries[i].0);
  }
}
