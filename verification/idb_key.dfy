/** IndexedDB keys: the total order the store sorts by, and the derived equality it searches by. */
module IdbKey {
  import opened Bytes
  import opened Wrappers

  /** A 64-bit float; finite values are reals, so both zeros are one value, as `==` and `cmp` treat them. */
  datatype Float = NaN | NegInf | Finite(value: real) | PosInf

  datatype Key =
    | Array(items: seq<Key>)
    | Text(utf8: seq<Byte>)
    | Date(date: Float)
    | Number(number: Float)
    | Binary(bytes: seq<Byte>)

  datatype Ordering = Less | Equal | Greater

  function Flip(o: Ordering): (r: Ordering) {
    match o
    case Less => Greater
    case Equal => Equal
    case Greater => Less
  }

  function CmpInt(a: int, b: int): (o: Ordering) {
    if a < b then Less else if a == b then Equal else Greater
  }

  /** `partial_cmp`, with NaN below every other value and equal to itself. */
  function CmpFloat(a: Float, b: Float): (o: Ordering) {
    match (a, b)
    case (NaN, NaN) => Equal
    case (NaN, _) => Less
    case (_, NaN) => Greater
    case (Finite(x), Finite(y)) => if x < y then Less else if x == y then Equal else Greater
    case (NegInf, NegInf) => Equal
    case (PosInf, PosInf) => Equal
    case (NegInf, _) => Less
    case (_, NegInf) => Greater
    case (PosInf, _) => Greater
    case (_, PosInf) => Less
  }

  /** Slice comparison: the first difference decides, and a proper prefix comes first. */
  function CmpBytes(a: seq<Byte>, b: seq<Byte>): (o: Ordering) {
    if a == [] || b == [] then CmpInt(|a|, |b|)
    else if a[0] != b[0] then CmpInt(a[0], b[0])
    else CmpBytes(a[1..], b[1..])
  }

  /** Arrays rank highest and binary keys lowest. */
  function Rank(k: Key): (r: nat) {
    match k
    case Array(_) => 5
    case Text(_) => 4
    case Date(_) => 3
    case Number(_) => 2
    case Binary(_) => 1
  }

  function Cmp(a: Key, b: Key): (o: Ordering)
    decreases a, 1
  {
    if Rank(a) != Rank(b) then CmpInt(Rank(a), Rank(b))
    else
      match a
      case Array(x) => CmpItems(x, b.items)
      case Text(x) => CmpBytes(x, b.utf8)
      case Date(x) => CmpFloat(x, b.date)
      case Number(x) => CmpFloat(x, b.number)
      case Binary(x) => CmpBytes(x, b.bytes)
  }

  function CmpItems(a: seq<Key>, b: seq<Key>): (o: Ordering)
    decreases a, 0
  {
    if a == [] || b == [] then CmpInt(|a|, |b|)
    else
      var first := Cmp(a[0], b[0]);
      if first != Equal then first else CmpItems(a[1..], b[1..])
  }

  // ---- Total order ----------------------------------------------------------------------

  lemma {:induction false} BytesLaws(a: seq<Byte>, b: seq<Byte>)
    ensures CmpBytes(b, a) == Flip(CmpBytes(a, b))
    ensures CmpBytes(a, b) == Equal <==> a == b
  {
    if a != [] && b != [] && a[0] == b[0] {
      BytesLaws(a[1..], b[1..]);
      assert a == [a[0]] + a[1..] && b == [b[0]] + b[1..];
    }
  }

  /** `p` then `q` compose: two steps that are not upward give one that is not upward, and strictly so if either is. */
  predicate Composes(p: Ordering, q: Ordering, pq: Ordering) {
    && (p != Greater && q != Greater ==> pq != Greater)
    && (p != Greater && q != Greater && (p == Less || q == Less) ==> pq == Less)
  }

  lemma {:induction false} BytesCompose(a: seq<Byte>, b: seq<Byte>, c: seq<Byte>)
    ensures Composes(CmpBytes(a, b), CmpBytes(b, c), CmpBytes(a, c))
  {
    if a != [] && b != [] && c != [] && a[0] == b[0] == c[0] {
      BytesCompose(a[1..], b[1..], c[1..]);
    }
  }

  /** Antisymmetry, and equality exactly on structurally equal keys. */
  lemma {:induction false} CmpLaws(a: Key, b: Key)
    ensures Cmp(b, a) == Flip(Cmp(a, b))
    ensures Cmp(a, b) == Equal <==> a == b
    decreases a, 1
  {
    if Rank(a) == Rank(b) {
      match a
      case Array(x) => ItemsLaws(x, b.items);
      case Text(x) => BytesLaws(x, b.utf8);
      case Binary(x) => BytesLaws(x, b.bytes);
      case _ =>
    }
  }

  lemma {:induction false} ItemsLaws(a: seq<Key>, b: seq<Key>)
    ensures CmpItems(b, a) == Flip(CmpItems(a, b))
    ensures CmpItems(a, b) == Equal <==> a == b
    decreases a, 0
  {
    if a != [] && b != [] {
      CmpLaws(a[0], b[0]);
      ItemsLaws(a[1..], b[1..]);
      assert a == [a[0]] + a[1..] && b == [b[0]] + b[1..];
    }
  }

  /** Transitivity, for arbitrarily nested arrays. */
  lemma {:induction false} CmpComposes(a: Key, b: Key, c: Key)
    ensures Composes(Cmp(a, b), Cmp(b, c), Cmp(a, c))
    decreases a, 1
  {
    if Rank(a) == Rank(b) == Rank(c) {
      match a
      case Array(x) => ItemsCompose(x, b.items, c.items);
      case Text(x) => BytesCompose(x, b.utf8, c.utf8);
      case Binary(x) => BytesCompose(x, b.bytes, c.bytes);
      case _ =>
    }
  }

  lemma {:induction false} ItemsCompose(a: seq<Key>, b: seq<Key>, c: seq<Key>)
    ensures Composes(CmpItems(a, b), CmpItems(b, c), CmpItems(a, c))
    decreases a, 0
  {
    if a != [] && b != [] && c != [] {
      CmpComposes(a[0], b[0], c[0]);
      CmpLaws(a[0], b[0]);
      CmpLaws(b[0], c[0]);
      ItemsCompose(a[1..], b[1..], c[1..]);
    }
  }

  /** `cmp` is a total order on every key, NaN and nesting included, and Equal means the same key. */
  lemma KeyOrderIsTotal(a: Key, b: Key, c: Key)
    ensures Cmp(a, a) == Equal
    ensures Cmp(a, b) == Flip(Cmp(b, a))
    ensures Cmp(a, b) == Equal <==> a == b
    ensures Cmp(a, b) == Less && Cmp(b, c) == Less ==> Cmp(a, c) == Less
    ensures Cmp(a, b) != Greater && Cmp(b, c) != Greater ==> Cmp(a, c) != Greater
  {
    CmpLaws(a, a);
    CmpLaws(a, b);
    CmpComposes(a, b, c);
  }

  // ---- The order as declared ------------------------------------------------------------

  /** The shorter of two strings that start alike, or the one with the smaller byte where they first differ. */
  ghost predicate BytesBefore(a: seq<Byte>, b: seq<Byte>) {
    exists k: nat :: k <= |a| && k < |b| && a[..k] == b[..k] && (k == |a| || a[k] < b[k])
  }

  predicate FloatBefore(a: Float, b: Float) {
    match a
    case NaN => b != NaN
    case NegInf => b.Finite? || b == PosInf
    case Finite(x) => (b.Finite? && x < b.value) || b == PosInf
    case PosInf => false
  }

  /** Binary keys come before numbers, then dates, then texts, then arrays; within a kind the contents decide. */
  ghost predicate ComesBefore(a: Key, b: Key)
    decreases a, 1
  {
    match a
    case Binary(x) => !b.Binary? || BytesBefore(x, b.bytes)
    case Number(x) => b.Date? || b.Text? || b.Array? || (b.Number? && FloatBefore(x, b.number))
    case Date(x) => b.Text? || b.Array? || (b.Date? && FloatBefore(x, b.date))
    case Text(x) => b.Array? || (b.Text? && BytesBefore(x, b.utf8))
    case Array(x) => b.Array? && ItemsBefore(x, b.items)
  }

  ghost predicate ItemsBefore(a: seq<Key>, b: seq<Key>)
    decreases a, 0
  {
    exists k: nat :: k <= |a| && k < |b| && a[..k] == b[..k] && (k == |a| || ComesBefore(a[k], b[k]))
  }

  lemma {:induction false} BytesAreDeclared(a: seq<Byte>, b: seq<Byte>)
    ensures CmpBytes(a, b) == Less <==> BytesBefore(a, b)
  {
    if a == [] || b == [] {
      if |a| < |b| {
        assert a[..0] == b[..0];
      }
    } else if a[0] != b[0] {
      assert a[..0] == b[..0];
      assert forall k :: 0 < k <= |a| && k <= |b| ==> a[..k][0] == a[0] && b[..k][0] == b[0];
    } else {
      BytesAreDeclared(a[1..], b[1..]);
      if BytesBefore(a, b) {
        var k: nat :| k <= |a| && k < |b| && a[..k] == b[..k] && (k == |a| || a[k] < b[k]);
        assert a[1..][..k - 1] == a[..k][1..] == b[1..][..k - 1];
      }
      if BytesBefore(a[1..], b[1..]) {
        var k: nat :| k <= |a[1..]| && k < |b[1..]| && a[1..][..k] == b[1..][..k] && (k == |a[1..]| || a[1..][k] < b[1..][k]);
        assert a[..k + 1] == [a[0]] + a[1..][..k] && b[..k + 1] == [b[0]] + b[1..][..k];
      }
    }
  }

  /** `cmp` is that order. */
  lemma {:induction false} OrderIsDeclared(a: Key, b: Key)
    ensures Cmp(a, b) == Less <==> ComesBefore(a, b)
    decreases a, 1
  {
    match a
    case Array(x) => if b.Array? { ItemsAreDeclared(x, b.items); }
    case Text(x) => if b.Text? { BytesAreDeclared(x, b.utf8); }
    case Binary(x) => if b.Binary? { BytesAreDeclared(x, b.bytes); }
    case _ =>
  }

  lemma ItemsOn(a: seq<Key>, b: seq<Key>)
    requires a != [] && b != [] && a[0] == b[0] && !ComesBefore(a[0], b[0])
    ensures ItemsBefore(a, b) <==> ItemsBefore(a[1..], b[1..])
  {
    if ItemsBefore(a, b) {
      var k: nat :| k <= |a| && k < |b| && a[..k] == b[..k] && (k == |a| || ComesBefore(a[k], b[k]));
      assert a[1..][..k - 1] == a[..k][1..] == b[1..][..k - 1];
    }
    if ItemsBefore(a[1..], b[1..]) {
      var k: nat :| k <= |a[1..]| && k < |b[1..]| && a[1..][..k] == b[1..][..k]
                    && (k == |a[1..]| || ComesBefore(a[1..][k], b[1..][k]));
      assert a[..k + 1] == [a[0]] + a[1..][..k] && b[..k + 1] == [b[0]] + b[1..][..k];
    }
  }

  lemma {:induction false} ItemsAreDeclared(a: seq<Key>, b: seq<Key>)
    ensures CmpItems(a, b) == Less <==> ItemsBefore(a, b)
    decreases a, 0
  {
    if a == [] || b == [] {
      if |a| < |b| {
        assert a[..0] == b[..0];
      }
    } else {
      OrderIsDeclared(a[0], b[0]);
      CmpLaws(a[0], b[0]);
      if a[0] == b[0] {
        ItemsAreDeclared(a[1..], b[1..]);
        ItemsOn(a, b);
      } else {
        assert a[..0] == b[..0];
        assert forall k :: 0 < k <= |a| && k <= |b| ==> a[..k][0] == a[0] && b[..k][0] == b[0];
      }
    }
  }

  // ---- Derived equality -----------------------------------------------------------------

  predicate FloatEq(a: Float, b: Float) {
    a == b && a != NaN
  }

  /** The derived `PartialEq`: structural, except that NaN differs from itself. */
  predicate KeyEq(a: Key, b: Key)
    decreases a, 1
  {
    match (a, b)
    case (Array(x), Array(y)) => ItemsEq(x, y)
    case (Text(x), Text(y)) => x == y
    case (Date(x), Date(y)) => FloatEq(x, y)
    case (Number(x), Number(y)) => FloatEq(x, y)
    case (Binary(x), Binary(y)) => x == y
    case _ => false
  }

  predicate ItemsEq(a: seq<Key>, b: seq<Key>)
    decreases a, 0
  {
    |a| == |b| && (a == [] || (KeyEq(a[0], b[0]) && ItemsEq(a[1..], b[1..])))
  }

  /** No NaN anywhere inside the key. */
  predicate NanFree(k: Key)
    decreases k, 1
  {
    match k
    case Array(items) => AllNanFree(items)
    case Date(d) => d != NaN
    case Number(n) => n != NaN
    case _ => true
  }

  predicate AllNanFree(items: seq<Key>)
    decreases items, 0
  {
    items == [] || (NanFree(items[0]) && AllNanFree(items[1..]))
  }

  /** The two notions of equality the store mixes agree exactly on NaN-free keys. */
  lemma {:induction false} EqualityAgreesWithoutNan(a: Key, b: Key)
    ensures KeyEq(a, b) <==> Cmp(a, b) == Equal && NanFree(a)
    ensures KeyEq(a, b) <==> a == b && NanFree(a)
    decreases a, 1
  {
    CmpLaws(a, b);
    if a.Array? && b.Array? {
      ItemsAgree(a.items, b.items);
    }
  }

  lemma {:induction false} ItemsAgree(a: seq<Key>, b: seq<Key>)
    ensures ItemsEq(a, b) <==> a == b && AllNanFree(a)
    decreases a, 0
  {
    if |a| == |b| && a != [] {
      EqualityAgreesWithoutNan(a[0], b[0]);
      ItemsAgree(a[1..], b[1..]);
      assert a == [a[0]] + a[1..] && b == [b[0]] + b[1..];
    }
  }

  // ---- The key budget ----------------------------------------------------

  const MAX_KEY_BYTES := 64 * 1024
  const MAX_KEY_DEPTH := 32
  const MAX_ARRAY_ITEMS := 1_024

  datatype KeyError = NestingBudget | ItemBudget | ByteBudget

  /** `validate_key_budget`: the key's size, or the budget it exceeds. */
  function KeyBytes(k: Key, depth: nat): (r: Result<nat, KeyError>)
    decreases k, 1
  {
    if depth > MAX_KEY_DEPTH then Err(NestingBudget) else
    var bytes :- match k {
      case Array(items) => if |items| > MAX_ARRAY_ITEMS then Err(ItemBudget) else ItemsBytes(items, depth + 1, 0)
      case Text(utf8) => Ok(|utf8|)
      case Binary(b) => Ok(|b|)
      case _ => Ok(8)
    };
    if bytes > MAX_KEY_BYTES then Err(ByteBudget) else Ok(bytes)
  }

  /** The array loop: stops early, with the sum so far, once the sum is over budget. */
  function ItemsBytes(items: seq<Key>, depth: nat, sum: nat): (r: Result<nat, KeyError>)
    decreases items, 0
  {
    if items == [] then Ok(sum)
    else
      var first :- KeyBytes(items[0], depth);
      if sum + first > MAX_KEY_BYTES then Ok(sum + first) else ItemsBytes(items[1..], depth, sum + first)
  }

  function Size(k: Key): (n: nat)
    decreases k, 1
  {
    match k
    case Array(items) => TotalSize(items)
    case Text(utf8) => |utf8|
    case Binary(b) => |b|
    case _ => 8
  }

  function TotalSize(items: seq<Key>): (n: nat)
    decreases items, 0
  {
    if items == [] then 0 else Size(items[0]) + TotalSize(items[1..])
  }

  /** At most `levels` array levels, each at most 1024 wide. */
  predicate Shaped(k: Key, levels: nat)
    decreases k, 1
  {
    k.Array? && k.items != [] ==> levels > 0 && |k.items| <= MAX_ARRAY_ITEMS && AllShaped(k.items, levels - 1)
  }

  predicate AllShaped(items: seq<Key>, levels: nat)
    decreases items, 0
  {
    items == [] || (Shaped(items[0], levels) && AllShaped(items[1..], levels))
  }

  /** The budget's answer for one key is right. */
  predicate KeyJudged(k: Key, depth: nat)
    requires depth <= MAX_KEY_DEPTH
  {
    var bytes := KeyBytes(k, depth);
    if Shaped(k, MAX_KEY_DEPTH - depth) && Size(k) <= MAX_KEY_BYTES then bytes == Ok(Size(k)) else bytes.Err?
  }

  /** The same for the items of an array, after a sum of `sum`. */
  predicate ItemsJudged(items: seq<Key>, depth: nat, sum: nat) {
    var bytes := ItemsBytes(items, depth, sum);
    if items != [] && depth > MAX_KEY_DEPTH then bytes.Err?
    else if (items == [] || AllShaped(items, MAX_KEY_DEPTH - depth)) && sum + TotalSize(items) <= MAX_KEY_BYTES
    then bytes == Ok(sum + TotalSize(items))
    else bytes.Err? || bytes.value > MAX_KEY_BYTES
  }

  lemma {:induction false} KeyBudgetIs(k: Key, depth: nat)
    requires depth <= MAX_KEY_DEPTH
    ensures KeyJudged(k, depth)
    decreases k, 1
  {
    if k.Array? && |k.items| <= MAX_ARRAY_ITEMS {
      ItemsBudgetIs(k.items, depth + 1, 0);
    }
  }

  /** One step of the loop and of the two notions it is compared with. */
  lemma ItemsStep(first: Key, rest: seq<Key>, items: seq<Key>, depth: nat, sum: nat)
    requires items != [] && first == items[0] && rest == items[1..]
    ensures TotalSize(items) == Size(first) + TotalSize(rest)
    ensures forall levels: nat :: AllShaped(items, levels) <==> Shaped(first, levels) && AllShaped(rest, levels)
    ensures var bytes := KeyBytes(first, depth);
            && (bytes.Err? ==> ItemsBytes(items, depth, sum).Err?)
            && (bytes.Ok? && sum + bytes.value > MAX_KEY_BYTES ==> ItemsBytes(items, depth, sum) == Ok(sum + bytes.value))
            && (bytes.Ok? && sum + bytes.value <= MAX_KEY_BYTES ==>
                  ItemsBytes(items, depth, sum) == ItemsBytes(rest, depth, sum + bytes.value))
  {
  }

  lemma FirstFails(first: Key, rest: seq<Key>, items: seq<Key>, depth: nat, sum: nat)
    requires items != [] && first == items[0] && rest == items[1..] && depth <= MAX_KEY_DEPTH
    requires KeyJudged(first, depth) && (KeyBytes(first, depth).Ok? ==> sum + KeyBytes(first, depth).value > MAX_KEY_BYTES)
    ensures ItemsJudged(items, depth, sum)
  {
    ItemsStep(first, rest, items, depth, sum);
  }

  lemma FirstPasses(first: Key, rest: seq<Key>, items: seq<Key>, depth: nat, sum: nat)
    requires items != [] && first == items[0] && rest == items[1..] && depth <= MAX_KEY_DEPTH
    requires KeyJudged(first, depth) && KeyBytes(first, depth).Ok? && sum + KeyBytes(first, depth).value <= MAX_KEY_BYTES
    requires ItemsJudged(rest, depth, sum + KeyBytes(first, depth).value)
    ensures ItemsJudged(items, depth, sum)
  {
    ItemsStep(first, rest, items, depth, sum);
  }

  lemma {:induction false} ItemsBudgetIs(items: seq<Key>, depth: nat, sum: nat)
    requires depth <= MAX_KEY_DEPTH + 1 && sum <= MAX_KEY_BYTES
    ensures ItemsJudged(items, depth, sum)
    decreases items, 0
  {
    if items != [] && depth <= MAX_KEY_DEPTH {
      KeyBudgetIs(items[0], depth);
      var first := KeyBytes(items[0], depth);
      if first.Ok? && sum + first.value <= MAX_KEY_BYTES {
        ItemsBudgetIs(items[1..], depth, sum + first.value);
        FirstPasses(items[0], items[1..], items, depth, sum);
      } else {
        FirstFails(items[0], items[1..], items, depth, sum);
      }
    }
  }

  /** A key passes the budget exactly when it nests, widens and weighs no more than the limits; then its size is returned. */
  lemma KeyBudget(k: Key)
    ensures KeyBytes(k, 0).Ok? <==> Shaped(k, MAX_KEY_DEPTH) && Size(k) <= MAX_KEY_BYTES
    ensures KeyBytes(k, 0).Ok? ==> KeyBytes(k, 0).value == Size(k)
  {
    KeyBudgetIs(k, 0);
  }
}
