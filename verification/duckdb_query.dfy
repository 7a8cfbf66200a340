/**
 * The prepared-statement wrapper: a statement remembers the order of its
 * named parameters and binds an argument record positionally.
 */
module DuckDbQuery {

  /** A value bound to a `?` placeholder; `Undefined` is what a missing key reads as. */
  datatype SqlValue = SqlString(s: string) | SqlNumber(n: real) | SqlBool(b: bool) | SqlNull | Undefined

  /** A built query: its SQL text and parameter order. */
  datatype Query = Query(sql: string, paramOrder: seq<string>)

  /** What the statement is executed with. */
  datatype Execution = Execution(sql: string, values: seq<SqlValue>)

  /** JavaScript `args[key]`: the value stored under `key`, `undefined` if there is none. */
  function Lookup(args: map<string, SqlValue>, key: string): SqlValue {
    if key in args then args[key] else Undefined
  }

  /** `DuckDbQuery.build`: an absent parameter order is stored as the empty order. */
  function Build(sql: string, paramOrder: seq<string>, hasOrder: bool): (q: Query)
    ensures q.sql == sql
    ensures !hasOrder ==> q.paramOrder == []
    ensures hasOrder ==> q.paramOrder == paramOrder
  {
    Query(sql, if hasOrder then paramOrder else [])
  }

  /** The bound values: the argument for each key of the order, in order. */
  function BindValues(order: seq<string>, args: map<string, SqlValue>): (r: seq<SqlValue>)
    ensures |r| == |order|
    ensures forall i :: 0 <= i < |order| ==> r[i] == Lookup(args, order[i])
  {
    if |order| == 0 then []
    else [Lookup(args, order[0])] + BindValues(order[1..], args)
  }

  /** `query`: with no parameters the statement runs bare; otherwise with the positional values. */
  function Execute(q: Query, args: map<string, SqlValue>): (e: Execution)
    ensures e.sql == q.sql
    ensures q.paramOrder == [] ==> e.values == []
    ensures |e.values| == |q.paramOrder|
    ensures forall i :: 0 <= i < |q.paramOrder| ==> e.values[i] == Lookup(args, q.paramOrder[i])
  {
    if |q.paramOrder| == 0 then Execution(q.sql, [])
    else Execution(q.sql, BindValues(q.paramOrder, args))
  }

  /** A key repeated in the order binds the same value at both positions. */
  lemma {:induction false} RepeatedKeyBindsSameValue(q: Query, args: map<string, SqlValue>, i: nat, j: nat)
    requires i < |q.paramOrder| && j < |q.paramOrder| && q.paramOrder[i] == q.paramOrder[j]
    ensures Execute(q, args).values[i] == Execute(q, args).values[j]
  {
  }

  /** Keys that the order does not name have no effect on what is executed. */
  lemma {:induction false} UnnamedKeysIgnored(order: seq<string>, args: map<string, SqlValue>, k: string, v: SqlValue)
    requires k !in order
    ensures BindValues(order, args[k := v]) == BindValues(order, args)
    decreases |order|
  {
    if |order| > 0 {
      assert order[0] != k;
      assert k !in order[1..];
      UnnamedKeysIgnored(order[1..], args, k, v);
    }
  }

  /** A query built without an order runs bare whatever the arguments hold. */
  lemma {:induction false} UnorderedQueryIgnoresArgs(sql: string, order: seq<string>, a: map<string, SqlValue>, b: map<string, SqlValue>)
    ensures Execute(Build(sql, order, false), a) == Execute(Build(sql, order, false), b) == Execution(sql, [])
  {
  }
}
