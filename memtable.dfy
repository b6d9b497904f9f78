/**
 * The values the SSTable writer reads from a Memtable: tokens, versioned cells
 * and rows. A Memtable is a sorted map from Token to a sorted map from column
 * name to Val; here it is the list of its entries in iteration order.
 */
module Memtable {
  import opened Primitives

  /** A row's sort key (the partitioner's token text) paired with its row key. */
  datatype Token = Token(token: seq<byte>, rowkey: seq<byte>)

  /** A versioned cell; the fields are in the order of Java's `new Val(value, time, createTime, ttl)`. */
  datatype Val = Val(value: seq<byte>, time: Long, createTime: Long, ttl: Long)

  datatype Column = Column(name: seq<byte>, val: Val)

  /** One entry of the Memtable: a token and the row's columns in iteration order. */
  datatype Row = Row(key: Token, columns: seq<Column>)

  datatype Memtable = Memtable(rows: seq<Row>)

  /**
   * Lexicographic order on byte strings, a proper prefix first (`String.compareTo` on ASCII).
   * A string is never below itself, and a non-empty one is below only strings whose first byte is not smaller.
   */
  predicate ByteLess(a: seq<byte>, b: seq<byte>): (r: bool)
    ensures r ==> a != b
    ensures r && |a| > 0 ==> |b| > 0 && a[0] <= b[0]
    decreases |a|
  {
    if |a| == 0 then |b| > 0
    else if |b| == 0 then false
    else if a[0] != b[0] then a[0] < b[0]
    else ByteLess(a[1..], b[1..])
  }

  /** Tokens compare by their token text, then by row key. */
  predicate TokenLess(x: Token, y: Token): (r: bool)
    ensures r ==> x != y
  {
    ByteLess(x.token, y.token) || (x.token == y.token && ByteLess(x.rowkey, y.rowkey))
  }

  /** Each entry's token is below the next one's, and each row's column names ascend; so no two neighbouring entries share a token. */
  predicate Sorted(m: Memtable): (r: bool)
    ensures r ==> forall i :: 0 < i < |m.rows| ==> m.rows[i - 1].key != m.rows[i].key
  {
    && (forall i :: 0 < i < |m.rows| ==> TokenLess(m.rows[i - 1].key, m.rows[i].key))
    && (forall r :: r in m.rows ==> ColumnsSorted(r.columns))
  }

  predicate ColumnsSorted(cs: seq<Column>) {
    forall i :: 0 < i < |cs| ==> ByteLess(cs[i - 1].name, cs[i].name)
  }

  lemma {:induction false} ByteLessIrreflexive(a: seq<byte>)
    ensures !ByteLess(a, a)
    decreases |a|
  {
    if |a| > 0 {
      ByteLessIrreflexive(a[1..]);
    }
  }

  lemma {:induction false} ByteLessTransitive(a: seq<byte>, b: seq<byte>, c: seq<byte>)
    requires ByteLess(a, b) && ByteLess(b, c)
    ensures ByteLess(a, c)
    decreases |a|
  {
    if |a| > 0 && |b| > 0 && |c| > 0 && a[0] == b[0] == c[0] {
      ByteLessTransitive(a[1..], b[1..], c[1..]);
    }
  }

  lemma {:induction false} ByteLessTotal(a: seq<byte>, b: seq<byte>)
    requires a != b
    ensures ByteLess(a, b) || ByteLess(b, a)
    decreases |a|
  {
    if |a| > 0 && |b| > 0 && a[0] == b[0] {
      assert a == [a[0]] + a[1..] && b == [b[0]] + b[1..];
      ByteLessTotal(a[1..], b[1..]);
    }
  }

  /** The order on tokens is a strict total order, so a sorted Memtable has one entry per token. */
  lemma TokenLessStrictTotalOrder(x: Token, y: Token, z: Token)
    ensures !TokenLess(x, x)
    ensures TokenLess(x, y) && TokenLess(y, z) ==> TokenLess(x, z)
    ensures x != y ==> TokenLess(x, y) || TokenLess(y, x)
  {
    ByteLessIrreflexive(x.token);
    ByteLessIrreflexive(x.rowkey);
    if TokenLess(x, y) && TokenLess(y, z) {
      if ByteLess(x.token, y.token) && ByteLess(y.token, z.token) {
        ByteLessTransitive(x.token, y.token, z.token);
      } else if x.token == y.token == z.token {
        ByteLessTransitive(x.rowkey, y.rowkey, z.rowkey);
      }
    }
    if x != y {
      if x.token != y.token {
        ByteLessTotal(x.token, y.token);
      } else {
        ByteLessTotal(x.rowkey, y.rowkey);
      }
    }
  }

  /** In a sorted Memtable every entry's token is below every later entry's: iteration is ascending. */
  lemma {:induction false} SortedRowsAscend(m: Memtable, i: nat, j: nat)
    requires Sorted(m)
    requires i < j < |m.rows|
    ensures TokenLess(m.rows[i].key, m.rows[j].key)
    decreases j - i
  {
    if i + 1 < j {
      SortedRowsAscend(m, i + 1, j);
      TokenLessStrictTotalOrder(m.rows[i].key, m.rows[i + 1].key, m.rows[j].key);
    }
  }
}
