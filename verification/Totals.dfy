/** Order lines, and the running total that checkout and the cart page compute over them. */
module Totals {
  import opened Wrappers

  type ProductId = nat

  const MAX_I64: int := 0x7fff_ffff_ffff_ffff
  const TWO_64: int := 0x1_0000_0000_0000_0000
  const MAX_I32: int := 0x7fff_ffff

  /** A snapshot of one purchased product: what `order_items` stores. */
  datatype OrderLine = OrderLine(product: ProductId, name: string, unitPrice: int, quantity: int) {
    /** The column types and CHECKs: BIGINT price >= 0, INTEGER quantity > 0. */
    predicate Valid() {
      0 <= unitPrice <= MAX_I64 && 0 < quantity <= MAX_I32
    }

    function Amount(): int {
      unitPrice * quantity
    }
  }

  /** How the host language adds up 64-bit cents: Go and Rust's release profile wrap; Python
      keeps the exact integer, which the BIGINT column then refuses when it does not fit. */
  datatype Arith = Wrapping | Checked

  predicate AllValid(lines: seq<OrderLine>) {
    forall i :: 0 <= i < |lines| ==> lines[i].Valid()
  }

  /** The two's complement 64-bit value of x. */
  function Wrap64(x: int): (r: int)
    ensures -MAX_I64 - 1 <= r <= MAX_I64
    ensures (x - r) % TWO_64 == 0
    ensures -MAX_I64 - 1 <= x <= MAX_I64 ==> r == x
  {
    (x + MAX_I64 + 1) % TWO_64 - MAX_I64 - 1
  }

  /** The total over unbounded integers. */
  function TrueTotal(lines: seq<OrderLine>): int {
    if lines == [] then 0 else TrueTotal(lines[..|lines| - 1]) + lines[|lines| - 1].Amount()
  }

  /** The total as a 64-bit loop computes it: every product and every partial sum wraps. */
  function WrappedTotal(lines: seq<OrderLine>): int {
    if lines == [] then 0
    else Wrap64(WrappedTotal(lines[..|lines| - 1]) + Wrap64(lines[|lines| - 1].Amount()))
  }

  /** What ends up in `orders.total_cents`, or None when the statement is refused
      (BIGINT range, or CHECK (total_cents >= 0) on a wrapped negative). */
  function StoredTotal(arith: Arith, lines: seq<OrderLine>): Option<int> {
    var total := if arith.Wrapping? then WrappedTotal(lines) else TrueTotal(lines);
    if 0 <= total <= MAX_I64 then Some(total) else None
  }

  lemma Wrap64Unique(x: int, r: int)
    requires -MAX_I64 - 1 <= r <= MAX_I64
    requires (x - r) % TWO_64 == 0
    ensures r == Wrap64(x)
  {
  }

  lemma Wrap64Add(x: int, y: int)
    ensures Wrap64(Wrap64(x) + Wrap64(y)) == Wrap64(x + y)
  {
    var r := Wrap64(Wrap64(x) + Wrap64(y));
    Wrap64Unique(x + y, r);
  }

  /** However often the loop wraps, it is off by a multiple of 2^64 only. */
  lemma {:induction false} WrappedIsTrueModulo(lines: seq<OrderLine>)
    ensures WrappedTotal(lines) == Wrap64(TrueTotal(lines))
  {
    if lines != [] {
      var rest := lines[..|lines| - 1];
      WrappedIsTrueModulo(rest);
      Wrap64Add(TrueTotal(rest), lines[|lines| - 1].Amount());
    }
  }

  lemma AmountBounds(line: OrderLine)
    requires line.Valid()
    ensures 0 <= line.unitPrice <= line.Amount()
  {
    assert line.Amount() == line.unitPrice * (line.quantity - 1) + line.unitPrice;
  }

  lemma {:induction false} PrefixTotals(lines: seq<OrderLine>, n: nat)
    requires AllValid(lines) && n <= |lines|
    ensures 0 <= TrueTotal(lines[..n]) <= TrueTotal(lines)
    ensures n < |lines| ==> 0 <= lines[n].Amount() <= TrueTotal(lines)
    decreases |lines|
  {
    if n == |lines| {
      assert lines[..n] == lines;
      if n > 0 {
        PrefixTotals(lines[..n - 1], n - 1);
        AmountBounds(lines[n - 1]);
        assert lines[..n - 1][..n - 1] == lines[..n - 1];
      }
    } else {
      var rest := lines[..|lines| - 1];
      AmountBounds(lines[|lines| - 1]);
      PrefixTotals(rest, n);
      assert rest[..n] == lines[..n];
    }
  }

  /** The loop never wraps, at any line product or partial sum, exactly when the true total fits. */
  lemma NoWrapIff(lines: seq<OrderLine>)
    requires AllValid(lines)
    ensures TrueTotal(lines) <= MAX_I64
       <==> (&& (forall i :: 0 <= i < |lines| ==> Wrap64(lines[i].Amount()) == lines[i].Amount())
             && (forall n :: 0 <= n <= |lines| ==> WrappedTotal(lines[..n]) == TrueTotal(lines[..n])))
  {
    assert lines[..|lines|] == lines;
    forall n | 0 <= n <= |lines|
      ensures WrappedTotal(lines[..n]) == Wrap64(TrueTotal(lines[..n]))
      ensures 0 <= TrueTotal(lines[..n]) <= TrueTotal(lines)
    {
      WrappedIsTrueModulo(lines[..n]);
      PrefixTotals(lines, n);
    }
    forall i | 0 <= i < |lines|
      ensures 0 <= lines[i].Amount() <= TrueTotal(lines)
    {
      PrefixTotals(lines, i);
    }
  }

  /** The stored total is the true one exactly when that fits in 64 bits. In particular
      the wrapping languages can store a wrong total, see StoredTotalCanBeWrong. */
  lemma StoredTotalIsTrueIff(arith: Arith, lines: seq<OrderLine>)
    requires AllValid(lines)
    ensures StoredTotal(arith, lines) == Some(TrueTotal(lines)) <==> TrueTotal(lines) <= MAX_I64
    ensures arith.Checked? && TrueTotal(lines) > MAX_I64 ==> StoredTotal(arith, lines).None?
  {
    WrappedIsTrueModulo(lines);
    PrefixTotals(lines, |lines|);
  }

  lemma StoredTotalModulo(arith: Arith, lines: seq<OrderLine>)
    requires StoredTotal(arith, lines).Some?
    ensures 0 <= StoredTotal(arith, lines).value <= MAX_I64
    ensures (TrueTotal(lines) - StoredTotal(arith, lines).value) % TWO_64 == 0
  {
    WrappedIsTrueModulo(lines);
  }

  /** Two units at 2^63 - 1 cents and one line of 3 cents are accepted for a total of one cent. */
  lemma StoredTotalCanBeWrong()
    ensures var lines := [OrderLine(0, "", MAX_I64, 2), OrderLine(1, "", 3, 1)];
            AllValid(lines) && StoredTotal(Wrapping, lines) == Some(1) && TrueTotal(lines) == TWO_64 + 1
  {
    var lines := [OrderLine(0, "", MAX_I64, 2), OrderLine(1, "", 3, 1)];
    WrappedIsTrueModulo(lines);
    assert lines[..1] == [OrderLine(0, "", MAX_I64, 2)];
    assert lines[..1][..0] == [];
    assert TrueTotal(lines[..1]) == MAX_I64 * 2;
  }

  lemma ProductBound(a: nat, a': nat, b: nat, b': nat)
    requires a <= a' && b <= b'
    ensures a * b <= a' * b'
  {
    assert a * b <= a' * b;
    assert a' * b <= a' * b';
  }

  lemma Distribute(n: nat, x: int)
    ensures (n + 1) * x == n * x + x
  {
  }

  /** A bound a shop can enforce: line count, price cap and the INTEGER quantity. */
  lemma {:induction false} TotalWithinBound(lines: seq<OrderLine>, maxPrice: nat)
    requires AllValid(lines)
    requires forall i :: 0 <= i < |lines| ==> lines[i].unitPrice <= maxPrice
    ensures TrueTotal(lines) <= |lines| * (maxPrice * MAX_I32)
  {
    if lines != [] {
      var line := lines[|lines| - 1];
      TotalWithinBound(lines[..|lines| - 1], maxPrice);
      ProductBound(line.unitPrice, maxPrice, line.quantity, MAX_I32);
      Distribute(|lines| - 1, maxPrice * MAX_I32);
    }
  }

  lemma {:induction false} TotalOfUpdate(before: seq<OrderLine>, line: OrderLine, after: seq<OrderLine>)
    ensures TrueTotal(before + [line] + after) == TrueTotal(before + after) + line.Amount()
  {
    if after == [] {
      assert before + [line] + after == before + [line] && before + after == before;
      assert (before + [line])[..|before|] == before;
    } else {
      var cut := after[..|after| - 1];
      TotalOfUpdate(before, line, cut);
      var all, rest := before + [line] + after, before + after;
      assert all[..|all| - 1] == before + [line] + cut;
      assert rest[..|rest| - 1] == before + cut;
    }
  }

  lemma {:induction false} TrueTotalIgnoresRowOrder(quoted: seq<OrderLine>, charged: seq<OrderLine>)
    requires multiset(quoted) == multiset(charged)
    ensures TrueTotal(quoted) == TrueTotal(charged)
    decreases |quoted|
  {
    if quoted == [] {
      assert |charged| == |multiset(charged)| == 0;
    } else {
      var n := |quoted| - 1;
      var line := quoted[n];
      assert line in multiset(charged);
      var i :| 0 <= i < |charged| && charged[i] == line;
      var before, after := charged[..i], charged[i + 1..];
      assert charged == before + [line] + after;
      assert quoted == quoted[..n] + [line];
      assert multiset(charged) - multiset{line} == multiset(before + after);
      assert multiset(quoted) - multiset{line} == multiset(quoted[..n]);
      assert multiset(quoted[..n]) == multiset(before + after);
      TrueTotalIgnoresRowOrder(quoted[..n], before + after);
      TotalOfUpdate(before, line, after);
    }
  }

  /** The order in which a query returns the rows does not matter: the cart page (ORDER BY
      added_at) and checkout (no ORDER BY) arrive at one total, wrapped or not. */
  lemma TotalIgnoresRowOrder(arith: Arith, quoted: seq<OrderLine>, charged: seq<OrderLine>)
    requires multiset(quoted) == multiset(charged)
    ensures WrappedTotal(quoted) == WrappedTotal(charged)
    ensures StoredTotal(arith, quoted) == StoredTotal(arith, charged)
  {
    TrueTotalIgnoresRowOrder(quoted, charged);
    WrappedIsTrueModulo(quoted);
    WrappedIsTrueModulo(charged);
  }

  /** `CartResponse::from_rows`: one pass over the joined rows with a 64-bit accumulator. */
  method QuoteCart(rows: seq<OrderLine>) returns (lineTotals: seq<int>, total: int)
    ensures total == Wrap64(TrueTotal(rows))
    ensures |lineTotals| == |rows|
    ensures forall i :: 0 <= i < |rows| ==> lineTotals[i] == Wrap64(rows[i].Amount())
  {
    lineTotals, total := [], 0;
    for i := 0 to |rows|
      invariant |lineTotals| == i
      invariant forall j :: 0 <= j < i ==> lineTotals[j] == Wrap64(rows[j].Amount())
      invariant total == WrappedTotal(rows[..i])
    {
      var line := Wrap64(rows[i].Amount());
      assert rows[..i + 1][..i] == rows[..i];
      total := Wrap64(total + line);
      lineTotals := lineTotals + [line];
    }
    assert rows[..|rows|] == rows;
    WrappedIsTrueModulo(rows);
  }
}
