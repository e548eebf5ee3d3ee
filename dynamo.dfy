/**
 * The single DynamoDB table every repository of the backend writes to.
 *
 * An item lives under a key (partition key `pk`, sort key `sk`) and holds
 * named attributes.  Writes are the four DynamoDB operations the
 * repositories use: put, update (an upsert that assigns attributes),
 * delete, and a transaction that applies several of them all-or-nothing.
 * A query reads every item of one partition whose sort key begins with a
 * prefix.  Sort keys are strings such as "STATUS#Pending#ID#42", so the
 * prefix semantics of `begins_with` are modelled exactly.
 */
module Dynamo {
  import opened Wrappers

  datatype Value = N(n: int) | S(s: string) | B(b: bool)

  datatype Key = Key(pk: string, sk: string)

  type Item = map<string, Value>

  type Db = map<Key, Item>

  // ---------------------------------------------------------------------
  // Numbers inside keys: Python's f"{n}" of an int

  function Digit(d: nat): (c: char)
    requires d < 10
    ensures '0' <= c <= '9'
  {
    ('0' as int + d) as char
  }

  /** The decimal digits of n, most significant first. */
  function NatStr(n: nat): (s: string)
    ensures |s| > 0
    ensures forall i | 0 <= i < |s| :: '0' <= s[i] <= '9'
    ensures n < 10 <==> |s| == 1
    decreases n
  {
    if n < 10 then [Digit(n)] else NatStr(n / 10) + [Digit(n % 10)]
  }

  /** Python's str(i) for an int: an optional minus sign, then the digits. */
  function Str(i: int): (s: string)
    ensures |s| > 0 && HashFree(s)
    ensures s[0] == '-' <==> i < 0
  {
    if i < 0 then "-" + NatStr(-i) else NatStr(i)
  }

  predicate HashFree(s: string) {
    forall i | 0 <= i < |s| :: s[i] != '#'
  }

  lemma {:induction false} NatStrInjective(a: nat, b: nat)
    requires NatStr(a) == NatStr(b)
    ensures a == b
    decreases a
  {
    var s := NatStr(a);
    assert (a < 10) == (b < 10) by {
      assert a < 10 <==> |s| == 1;
      assert b < 10 <==> |s| == 1;
    }
    if a < 10 {
      assert s[0] == Digit(a) == Digit(b);
    } else {
      var n := |s|;
      assert s == NatStr(a / 10) + [Digit(a % 10)];
      assert s == NatStr(b / 10) + [Digit(b % 10)];
      assert Digit(a % 10) == s[n - 1] == Digit(b % 10);
      assert NatStr(a / 10) == s[..n - 1] == NatStr(b / 10);
      NatStrInjective(a / 10, b / 10);
    }
  }

  /** Distinct ids render to distinct strings, so keys built from them differ. */
  lemma {:induction false} StrInjective(a: int, b: int)
    requires Str(a) == Str(b)
    ensures a == b
  {
    assert (a < 0) == (b < 0) by {
      assert a < 0 <==> Str(a)[0] == '-';
      assert b < 0 <==> Str(b)[0] == '-';
    }
    if a < 0 {
      assert NatStr(-a) == Str(a)[1..] == Str(b)[1..] == NatStr(-b);
      NatStrInjective(-a, -b);
    } else {
      NatStrInjective(a, b);
    }
  }

  /**
   * A key segment without '#' is recovered from "segment#rest": this is
   * what makes the repositories' composite sort keys unambiguous.
   */
  lemma SplitAtHash(a: string, b: string, c: string, d: string)
    requires HashFree(a) && HashFree(c)
    requires a + "#" + b == c + "#" + d
    ensures a == c && b == d
  {
    var x := a + "#" + b;
    FirstHashAfter(a, b);
    FirstHashAfter(c, d);
    assert a == x[..|a|] == c;
    assert b == x[|a| + 1..] == d;
  }

  /** The position of the first '#' in s, or |s| when there is none. */
  function FirstHash(s: string): (i: nat)
    ensures i <= |s|
    ensures forall j | 0 <= j < i :: s[j] != '#'
    ensures i < |s| ==> s[i] == '#'
  {
    if s == [] || s[0] == '#' then 0 else 1 + FirstHash(s[1..])
  }

  lemma FirstHashAfter(a: string, b: string)
    requires HashFree(a)
    ensures FirstHash(a + "#" + b) == |a|
  {
    var x := a + "#" + b;
    assert x[|a|] == '#';
    assert forall j | 0 <= j < |a| :: x[j] == a[j];
  }

  /** What follows the first '#' of s ("" when there is none). */
  function AfterHash(s: string): string {
    var i := FirstHash(s);
    if i < |s| then s[i + 1..] else ""
  }

  lemma AfterHashOf(a: string, b: string)
    requires HashFree(a)
    ensures AfterHash(a + "#" + b) == b
  {
    FirstHashAfter(a, b);
    assert (a + "#" + b)[|a| + 1..] == b;
  }

  /** Cancelling a common prefix of two equal strings. */
  lemma DropCommonPrefix(p: string, x: string, y: string)
    requires p + x == p + y
    ensures x == y
  {
    assert x == (p + x)[|p|..];
    assert y == (p + y)[|p|..];
  }

  // ---------------------------------------------------------------------
  // Lower-casing (ASCII) as done by str.lower()

  function LowerChar(c: char): char {
    if 'A' <= c <= 'Z' then (c as int + 32) as char else c
  }

  function Lower(s: string): (r: string)
    ensures |r| == |s|
    ensures forall i | 0 <= i < |s| :: r[i] == LowerChar(s[i])
    ensures HashFree(s) ==> HashFree(r)
  {
    seq(|s|, i requires 0 <= i < |s| => LowerChar(s[i]))
  }

  /** Python's `needle in hay` on strings. */
  predicate Contains(hay: string, needle: string)
    decreases |hay|
  {
    needle <= hay || (|hay| > 0 && Contains(hay[1..], needle))
  }

  // ---------------------------------------------------------------------
  // Reading attributes the way the repositories do

  function Get(item: Item, name: string): Option<Value> {
    if name in item then Some(item[name]) else None
  }

  /** Python's str(doc.get(name)): a missing attribute prints as "None". */
  function StrOf(v: Option<Value>): string {
    match v
    case None => "None"
    case Some(S(s)) => s
    case Some(N(n)) => Str(n)
    case Some(B(b)) => if b then "True" else "False"
  }

  /** Python's int(doc.get(name)); None stands for the TypeError of int(None). */
  function IntOf(v: Option<Value>): Option<int> {
    match v
    case Some(N(n)) => Some(n)
    case Some(B(b)) => Some(if b then 1 else 0)
    case _ => None
  }

  /** A str field of a record: only a stored string validates. */
  function TextOf(v: Option<Value>): Option<string> {
    if v.Some? && v.value.S? then Some(v.value.s) else None
  }

  function Lookup(db: Db, k: Key): Option<Item> {
    if k in db then Some(db[k]) else None
  }

  // ---------------------------------------------------------------------
  // Writes

  /** IfAbsent is "attribute_not_exists(pk) AND attribute_not_exists(sk)". */
  datatype Cond = Unconditional | IfAbsent

  datatype Op =
    | Put(key: Key, item: Item, cond: Cond)
    | Update(key: Key, assign: Item)
    | Delete(key: Key)

  /** One write on its own. Update creates the item when it is absent. */
  function Apply(db: Db, op: Op): Db {
    match op
    case Put(k, it, _) => db[k := it]
    case Update(k, a) => db[k := (if k in db then db[k] else map[]) + a]
    case Delete(k) => db - {k}
  }

  function ApplyAll(db: Db, ops: seq<Op>): Db
    decreases |ops|
  {
    if ops == [] then db else ApplyAll(Apply(db, ops[0]), ops[1..])
  }

  /** DynamoDB refuses a transaction that names one item twice. */
  predicate DistinctKeys(ops: seq<Op>) {
    forall i, j | 0 <= i < j < |ops| :: ops[i].key != ops[j].key
  }

  /** Two transactions with distinct keys and no key in common make one. */
  lemma DistinctConcat(xs: seq<Op>, ys: seq<Op>)
    requires DistinctKeys(xs) && DistinctKeys(ys)
    requires forall i | 0 <= i < |xs| :: !Touches(ys, xs[i].key)
    ensures DistinctKeys(xs + ys)
  {
    var zs := xs + ys;
    forall i, j | 0 <= i < j < |zs| ensures zs[i].key != zs[j].key {
      if j >= |xs| {
        assert zs[j] == ys[j - |xs|];
        if i < |xs| {
          assert !Touches(ys, xs[i].key);
        } else {
          assert zs[i] == ys[i - |xs|];
        }
      }
    }
  }

  /** Four writes on four pairwise different keys. */
  lemma DistinctFour(ops: seq<Op>)
    requires |ops| == 4
    requires ops[0].key != ops[1].key && ops[0].key != ops[2].key && ops[0].key != ops[3].key
    requires ops[1].key != ops[2].key && ops[1].key != ops[3].key && ops[2].key != ops[3].key
    ensures DistinctKeys(ops)
  {
  }

  /** A transaction without puts has no condition to fail. */
  lemma NoPuts(db: Db, xs: seq<Op>, ys: seq<Op>)
    requires forall i | 0 <= i < |xs| :: !xs[i].Put?
    requires forall i | 0 <= i < |ys| :: !ys[i].Put?
    ensures ConditionsHold(db, xs + ys)
  {
    var ops := xs + ys;
    forall i | 0 <= i < |ops| ensures !ops[i].Put? {
      if i < |xs| {
        assert ops[i] == xs[i];
      } else {
        assert ops[i] == ys[i - |xs|];
      }
    }
  }

  /**
   * A committed transaction of deletes followed by one upsert of the same
   * attributes per key: the upserted keys hold their old attributes
   * overwritten by the assigned ones, the deleted keys are gone, and every
   * other key is untouched.
   */
  lemma CommittedDeletesThenUpserts(db: Db, dels: seq<Op>, ups: seq<Op>, gone: set<Key>, keys: seq<Key>,
                                    assign: Item, accepted: bool)
    requires forall i | 0 <= i < |dels| :: dels[i].Delete? && dels[i].key in gone
    requires forall k | k in gone :: exists i | 0 <= i < |dels| :: dels[i].key == k
    requires |ups| == |keys| && forall j | 0 <= j < |ups| :: ups[j] == Update(keys[j], assign)
    requires Commit(db, dels + ups, accepted).0 == Committed
    ensures var db' := Commit(db, dels + ups, accepted).1;
      && (forall k | k in keys :: Lookup(db', k) == Some((if k in db then db[k] else map[]) + assign))
      && (forall k | k in gone :: k !in db')
      && (forall k | k !in keys && k !in gone :: Lookup(db', k) == Lookup(db, k))
  {
    var ops := dels + ups;
    var db' := Commit(db, ops, accepted).1;
    CommittedAll(db, ops, accepted);
    forall k | k in keys ensures Lookup(db', k) == Some((if k in db then db[k] else map[]) + assign) {
      var j :| 0 <= j < |keys| && keys[j] == k;
      assert ops[|dels| + j] == ups[j];
    }
    forall k | k in gone ensures k !in db' {
      var i :| 0 <= i < |dels| && dels[i].key == k;
      assert ops[i] == dels[i];
    }
    forall k | k !in keys && k !in gone ensures !Touches(ops, k) {
      forall i | 0 <= i < |ops| ensures ops[i].key != k {
        if i < |dels| {
          assert ops[i] == dels[i];
        } else {
          assert ops[i] == ups[i - |dels|];
        }
      }
    }
  }

  predicate ConditionsHold(db: Db, ops: seq<Op>) {
    forall i | 0 <= i < |ops| :: ops[i].Put? && ops[i].cond == IfAbsent ==> ops[i].key !in db
  }

  predicate Touches(ops: seq<Op>, k: Key) {
    exists i | 0 <= i < |ops| :: ops[i].key == k
  }

  /** Unavailable: the store rejected the call (a botocore ClientError on the wire). */
  datatype StoreError = Unavailable | ValidationException | TransactionCanceled

  datatype Outcome = Committed | Failed(error: StoreError)

  /**
   * TransactWriteItems. `accepted` is the environment's verdict: false when
   * the call fails for reasons outside the table (network, throttling).
   */
  function Commit(db: Db, ops: seq<Op>, accepted: bool): (res: (Outcome, Db))
    ensures res.0.Failed? ==> res.1 == db
    ensures res.0 == Committed <==> accepted && DistinctKeys(ops) && ConditionsHold(db, ops)
    ensures res.0 == Failed(Unavailable) <==> !accepted
    ensures res.0 == Failed(ValidationException) <==> accepted && !DistinctKeys(ops)
    ensures res.0 == Failed(TransactionCanceled) <==>
              accepted && DistinctKeys(ops) && !ConditionsHold(db, ops)
    ensures res.0 == Committed ==> forall k | !Touches(ops, k) :: Lookup(res.1, k) == Lookup(db, k)
  {
    if !accepted then (Failed(Unavailable), db)
    else if !DistinctKeys(ops) then (Failed(ValidationException), db)
    else if !ConditionsHold(db, ops) then (Failed(TransactionCanceled), db)
    else
      ApplyAllOutside(db, ops);
      (Committed, ApplyAll(db, ops))
  }

  lemma ApplyOther(db: Db, op: Op, k: Key)
    requires op.key != k
    ensures Lookup(Apply(db, op), k) == Lookup(db, k)
  {
  }

  lemma ApplyLocal(db1: Db, db2: Db, op: Op, k: Key)
    requires Lookup(db1, k) == Lookup(db2, k)
    ensures Lookup(Apply(db1, op), k) == Lookup(Apply(db2, op), k)
  {
  }

  lemma {:induction false} ApplyAllOutside(db: Db, ops: seq<Op>)
    ensures forall k | !Touches(ops, k) :: Lookup(ApplyAll(db, ops), k) == Lookup(db, k)
    decreases |ops|
  {
    if ops != [] {
      ApplyAllOutside(Apply(db, ops[0]), ops[1..]);
      forall k | !Touches(ops, k)
        ensures Lookup(ApplyAll(db, ops), k) == Lookup(db, k)
      {
        assert ops[0].key != k;
        ApplyOther(db, ops[0], k);
        assert !Touches(ops[1..], k) by {
          forall j | 0 <= j < |ops[1..]| ensures ops[1..][j].key != k {
            assert ops[1..][j] == ops[j + 1];
          }
        }
      }
    }
  }

  /**
   * In a transaction with distinct keys, the item under the key of the
   * i-th write is whatever that write alone makes of it.
   */
  lemma {:induction false} ApplyAllAt(db: Db, ops: seq<Op>, i: nat)
    requires DistinctKeys(ops) && i < |ops|
    ensures Lookup(ApplyAll(db, ops), ops[i].key) == Lookup(Apply(db, ops[i]), ops[i].key)
    decreases |ops|
  {
    var k := ops[i].key;
    var rest := ops[1..];
    if i == 0 {
      assert !Touches(rest, k) by {
        forall j | 0 <= j < |rest| ensures rest[j].key != k {
          assert rest[j] == ops[j + 1];
        }
      }
      ApplyAllOutside(Apply(db, ops[0]), rest);
    } else {
      assert rest[i - 1] == ops[i];
      assert DistinctKeys(rest) by {
        forall a, b | 0 <= a < b < |rest| ensures rest[a].key != rest[b].key {
          assert rest[a] == ops[a + 1] && rest[b] == ops[b + 1];
        }
      }
      ApplyAllAt(Apply(db, ops[0]), rest, i - 1);
      ApplyOther(db, ops[0], k);
      ApplyLocal(Apply(db, ops[0]), db, ops[i], k);
    }
  }

  /** After a committed transaction, each written key holds what its own write made of it. */
  lemma CommittedAt(db: Db, ops: seq<Op>, accepted: bool, i: nat)
    requires Commit(db, ops, accepted).0 == Committed && i < |ops|
    ensures Lookup(Commit(db, ops, accepted).1, ops[i].key) == Lookup(Apply(db, ops[i]), ops[i].key)
  {
    ApplyAllAt(db, ops, i);
  }

  /** What one write leaves at its own key. */
  function Written(db: Db, op: Op): (r: Option<Item>)
    ensures r == Lookup(Apply(db, op), op.key)
  {
    match op
    case Put(_, it, _) => Some(it)
    case Update(k, a) => Some((if k in db then db[k] else map[]) + a)
    case Delete(_) => None
  }

  /** After a committed transaction every written key holds what its write made of it. */
  lemma CommittedAll(db: Db, ops: seq<Op>, accepted: bool)
    requires Commit(db, ops, accepted).0 == Committed
    ensures forall i | 0 <= i < |ops| :: Lookup(Commit(db, ops, accepted).1, ops[i].key) == Written(db, ops[i])
  {
    forall i | 0 <= i < |ops|
      ensures Lookup(Commit(db, ops, accepted).1, ops[i].key) == Written(db, ops[i])
    {
      CommittedAt(db, ops, accepted, i);
    }
  }

  /** Two keys whose sort keys start with different characters differ. */
  lemma SkHeadsDiffer(p: string, x: string, q: string, y: string)
    requires |p| > 0 && |q| > 0 && p[0] != q[0]
    ensures p + x != q + y
  {
    assert (p + x)[0] == p[0];
    assert (q + y)[0] == q[0];
  }

  /** Regrouping a four-part key. */
  lemma Regroup(p: string, s: string, q: string, t: string)
    ensures p + s + q + t == p + (s + (q + t))
    ensures p + s + q + t == (p + s) + (q + t)
  {
  }

  /** Cancelling a common suffix of two equal strings. */
  lemma DropCommonSuffix(x: string, y: string, t: string)
    requires x + t == y + t
    ensures x == y
  {
    assert x == (x + t)[..|x|];
    assert y == (y + t)[..|y|];
  }

  // ---------------------------------------------------------------------
  // Queries

  datatype Row = Row(key: Key, item: Item)

  predicate Matches(k: Key, pk: string, prefix: string) {
    k.pk == pk && prefix <= k.sk
  }

  /**
   * rows lists every item of partition pk whose sort key starts with prefix,
   * each once, in the order the store returned them.
   */
  ghost predicate IsQueryResult(db: Db, pk: string, prefix: string, rows: seq<Row>) {
    && (forall i | 0 <= i < |rows| ::
          rows[i].key in db && rows[i].item == db[rows[i].key] && Matches(rows[i].key, pk, prefix))
    && (forall k | k in db && Matches(k, pk, prefix) :: exists i | 0 <= i < |rows| :: rows[i].key == k)
    && (forall i, j | 0 <= i < j < |rows| :: rows[i].key != rows[j].key)
  }

  /** The table, shared by every repository. */
  class Table {
    var items: Db

    constructor (init: Db)
      ensures items == init
    {
      items := init;
    }

    /** GetItem: the item under key, or None. */
    method GetItem(key: Key) returns (r: Option<Item>)
      ensures r == Lookup(items, key)
    {
      r := if key in items then Some(items[key]) else None;
    }

    /** GetItem whose call may itself fail; answered is false when it does. */
    method TryGetItem(key: Key) returns (r: Result<Option<Item>, StoreError>, ghost answered: bool)
      ensures answered ==> r == Ok(Lookup(items, key))
      ensures !answered ==> r == Err(Unavailable)
    {
      var up: bool :| true;
      answered := up;
      r := if up then Ok(Lookup(items, key)) else Err(Unavailable);
    }

    /** Query with "pk = :pk AND begins_with(sk, :prefix)". */
    method Query(pk: string, prefix: string) returns (rows: seq<Row>)
      ensures IsQueryResult(items, pk, prefix, rows)
    {
      var todo := set k | k in items && Matches(k, pk, prefix);
      rows := [];
      while todo != {}
        invariant forall k | k in todo :: k in items && Matches(k, pk, prefix)
        invariant forall i | 0 <= i < |rows| ::
          rows[i].key in items && rows[i].item == items[rows[i].key] &&
          Matches(rows[i].key, pk, prefix) && rows[i].key !in todo
        invariant forall k | k in items && Matches(k, pk, prefix) && k !in todo ::
          exists i | 0 <= i < |rows| :: rows[i].key == k
        invariant forall i, j | 0 <= i < j < |rows| :: rows[i].key != rows[j].key
        decreases todo
      {
        var k :| k in todo;
        ghost var before := rows;
        rows := rows + [Row(k, items[k])];
        todo := todo - {k};
        assert rows[|before|].key == k;
        forall k' | k' in items && Matches(k', pk, prefix) && k' !in todo
          ensures exists i | 0 <= i < |rows| :: rows[i].key == k'
        {
          if k' != k {
            var i :| 0 <= i < |before| && before[i].key == k';
            assert rows[i].key == k';
          }
        }
      }
    }

    /** TransactWriteItems: all of ops, or none of them. */
    method TransactWrite(ops: seq<Op>) returns (r: Outcome, ghost accepted: bool)
      modifies this
      ensures (r, items) == Commit(old(items), ops, accepted)
    {
      var up: bool :| true;
      accepted := up;
      var res := Commit(items, ops, up);
      r, items := res.0, res.1;
    }

    /** PutItem without a condition: replaces the whole item. */
    method PutItem(key: Key, item: Item) returns (r: Outcome, ghost accepted: bool)
      modifies this
      ensures (r, items) == Commit(old(items), [Put(key, item, Unconditional)], accepted)
    {
      r, accepted := TransactWrite([Put(key, item, Unconditional)]);
    }

    /** UpdateItem with a SET expression and no condition: an upsert. */
    method UpdateItem(key: Key, assign: Item) returns (r: Outcome, ghost accepted: bool)
      modifies this
      ensures (r, items) == Commit(old(items), [Update(key, assign)], accepted)
    {
      r, accepted := TransactWrite([Update(key, assign)]);
    }

    /** DeleteItem without a condition: deleting an absent item succeeds. */
    method DeleteItem(key: Key) returns (r: Outcome, ghost accepted: bool)
      modifies this
      ensures (r, items) == Commit(old(items), [Delete(key)], accepted)
    {
      r, accepted := TransactWrite([Delete(key)]);
    }
  }
}
