/** The growable array under every container, and what its growth costs. */
module Vectors {

  /** What matters for the cost: sizes, elements moved so far by reallocations,
      and elements pushed so far. */
  datatype Cost = Cost(size: nat, capacity: nat, moved: nat, pushed: nat)

  datatype Op = Push | Pop | Clear

  function Grown(c: Cost): nat {
    if c.capacity == 0 then 8 else 2 * c.capacity
  }

  function After(c: Cost, op: Op): Cost {
    match op
    case Push =>
      if c.size >= c.capacity then Cost(c.size + 1, Grown(c), c.moved + c.size, c.pushed + 1)
      else Cost(c.size + 1, c.capacity, c.moved, c.pushed + 1)
    case Pop => if c.size > 0 then c.(size := c.size - 1) else c
    case Clear => c.(size := 0)
  }

  /** The cost of a sequence of operations on an empty vector. */
  function CostOf(ops: seq<Op>): Cost {
    if ops == [] then Cost(0, 0, 0, 0) else After(CostOf(ops[..|ops| - 1]), ops[|ops| - 1])
  }

  ghost predicate Paid(c: Cost) {
    && c.size <= c.capacity && c.size <= c.pushed
    && (if c.capacity == 0 then c.moved == 0
        else c.capacity >= 8 && c.moved == c.capacity - 8 && c.pushed > 0)
    && (c.capacity > 8 ==> c.capacity <= 2 * (c.pushed - 1))
  }

  lemma {:induction false} CostIsPaid(ops: seq<Op>)
    ensures Paid(CostOf(ops))
  {
    if ops != [] {
      CostIsPaid(ops[..|ops| - 1]);
    }
  }

  /** Starting empty, any pushes, pops and clears keep the size within the
      capacity and move fewer than two elements per push. */
  lemma {:induction false} AmortisedGrowth(ops: seq<Op>)
    ensures var c := CostOf(ops);
            c.size <= c.capacity && (if c.pushed == 0 then c.moved == 0 else c.moved < 2 * c.pushed)
  {
    CostIsPaid(ops);
  }

  class Vector<T(0)> {
    var data: array<T>
    var size: nat
    var capacity: nat
    ghost var moved: nat
    ghost var pushed: nat

    ghost predicate Valid()
      reads this
    {
      data.Length == capacity && size <= capacity
    }

    ghost function Contents(): seq<T>
      requires Valid()
      reads this, data
    {
      data[..size]
    }

    ghost function Costs(): Cost
      reads this
    {
      Cost(size, capacity, moved, pushed)
    }

    constructor ()
      ensures Valid() && Contents() == [] && Costs() == Cost(0, 0, 0, 0) && fresh(data)
    {
      data := new T[0];
      size, capacity, moved, pushed := 0, 0, 0, 0;
    }

    method Reserve(newCap: nat)
      requires Valid()
      modifies this
      ensures Valid() && Contents() == old(Contents())
      ensures size == old(size) && pushed == old(pushed)
      ensures if newCap > old(capacity) then capacity == newCap && moved == old(moved) + size && fresh(data)
              else data == old(data) && Costs() == old(Costs())
    {
      if newCap > capacity {
        var newData := new T[newCap];
        var i := 0;
        while i < size
          invariant 0 <= i <= size
          invariant newData[..i] == old(data[..size])[..i]
          invariant moved == old(moved) + i
          modifies newData, `moved
        {
          newData[i] := data[i];
          moved := moved + 1;
          i := i + 1;
        }
        data, capacity := newData, newCap;
      }
    }

    method PushBack(value: T)
      requires Valid()
      modifies this, data
      ensures Valid() && Contents() == old(Contents()) + [value]
      ensures Costs() == After(old(Costs()), Push)
      ensures data == old(data) || fresh(data)
    {
      if size >= capacity {
        Reserve(if capacity == 0 then 8 else capacity * 2);
      }
      data[size] := value;
      size, pushed := size + 1, pushed + 1;
    }

    method PopBack()
      requires Valid()
      modifies this
      ensures Valid() && data == old(data)
      ensures Contents() == if old(size) > 0 then old(Contents())[..old(size) - 1] else []
      ensures Costs() == After(old(Costs()), Pop)
    {
      if size > 0 {
        size := size - 1;
      }
    }

    method Clear()
      requires Valid()
      modifies this
      ensures Valid() && data == old(data) && Contents() == []
      ensures Costs() == After(old(Costs()), Op.Clear)
    {
      size := 0;
    }
  }
}
