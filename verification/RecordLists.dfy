/**
 Lists of length-prefixed records: running a record parser a given number of times, or as long
 as the next record belongs to the list, and why such a run undoes printing the records end to
 end.
 */
module RecordLists {

  import opened Words

  /** Memory is total: bytes past the end of a buffer have some value. */
  type Memory = nat -> byte

  /** `Hang` stands for a loop that never leaves the same record. */
  datatype Result<T> = Parsed(value: T, length: nat) | Failed(code: int) | Hang

  /** A parser looks at an address and is told how many bytes are left (possibly negative). */
  type Parser<!T> = (nat, int) -> Result<T>

  /** `x`, which took `n` bytes, in front of what follows. */
  function Before<T>(x: T, n: nat, r: Result<seq<T>>): Result<seq<T>> {
    if r.Parsed? then Parsed([x] + r.value, n + r.length) else r
  }

  /** `n` records in a row. */
  function Many<T>(p: Parser<T>, at: nat, size: int, n: nat): Result<seq<T>>
    decreases n
  {
    if n == 0 then Parsed([], 0)
    else match p(at, size)
      case Parsed(x, len) => Before(x, len, Many(p, at + len, size - len, n - 1))
      case Failed(code) => Failed(code)
      case Hang => Hang
  }

  /** At least one record, and more while `more` says that the next one belongs to the list. */
  function Chain<T>(p: Parser<T>, more: (nat, int) -> bool, at: nat, size: int): Result<seq<T>>
    decreases if size < 0 then 0 else size
  {
    match p(at, size)
    case Parsed(x, len) =>
      if !more(at + len, size - len) then Parsed([x], len)
      else if len == 0 || size <= 0 then Hang
      else Before(x, len, Chain(p, more, at + len, size - len))
    case Failed(code) => Failed(code)
    case Hang => Hang
  }

  function PrintMany<T>(print_: T -> seq<byte>, items: seq<T>): seq<byte> {
    if items == [] then [] else print_(items[0]) + PrintMany(print_, items[1..])
  }

  ghost predicate Holds(mem: Memory, at: nat, data: seq<byte>) {
    forall i :: 0 <= i < |data| ==> mem(at + i) == data[i]
  }

  lemma HoldsParts(mem: Memory, at: nat, a: seq<byte>, b: seq<byte>)
    requires Holds(mem, at, a + b)
    ensures Holds(mem, at, a) && Holds(mem, at + |a|, b)
  {
    forall i | 0 <= i < |a| ensures mem(at + i) == a[i] {
      assert (a + b)[i] == a[i];
    }
    forall i | 0 <= i < |b| ensures mem(at + |a| + i) == b[i] {
      assert (a + b)[|a| + i] == b[i];
    }
  }

  lemma HoldsByte(mem: Memory, at: nat, data: seq<byte>, i: nat)
    requires Holds(mem, at, data) && i < |data|
    ensures mem(at + i) == data[i]
  {
  }

  /**
   If the printed record lies at `a` with something acceptable behind it, the parser recovers
   it, and the place where it starts is acceptable for what lies in front of it.
   */
  ghost predicate UndoneAt<T>(p: Parser<T>, print_: T -> seq<byte>, next: (nat, int) -> bool,
                              mem: Memory, x: T, a: nat, size: int)
  {
    Holds(mem, a, print_(x)) && size >= |print_(x)| && next(a + |print_(x)|, size - |print_(x)|) ==>
      p(a, size) == Parsed(x, |print_(x)|) && next(a, size)
  }

  ghost predicate Undone<T>(p: Parser<T>, print_: T -> seq<byte>, next: (nat, int) -> bool,
                            mem: Memory, items: seq<T>)
  {
    items == [] || ((forall a: nat, size: int :: UndoneAt(p, print_, next, mem, items[0], a, size))
                    && Undone(p, print_, next, mem, items[1..]))
  }

  lemma {:induction false} ManyUndoesPrintMany<T>(
    p: Parser<T>, print_: T -> seq<byte>, next: (nat, int) -> bool, mem: Memory,
    at: nat, items: seq<T>, left: nat)
    requires Undone(p, print_, next, mem, items)
    requires Holds(mem, at, PrintMany(print_, items))
    requires next(at + |PrintMany(print_, items)|, left)
    ensures Many(p, at, |PrintMany(print_, items)| + left, |items|) == Parsed(items, |PrintMany(print_, items)|)
    ensures next(at, |PrintMany(print_, items)| + left)
    decreases |items|
  {
    if items != [] {
      var first, others := print_(items[0]), PrintMany(print_, items[1..]);
      HoldsParts(mem, at, first, others);
      ManyUndoesPrintMany(p, print_, next, mem, at + |first|, items[1..], left);
      assert UndoneAt(p, print_, next, mem, items[0], at, |first| + |others| + left);
      assert [items[0]] + items[1..] == items;
    }
  }

  lemma ManyFirst<T>(p: Parser<T>, at: nat, size: int, x: T, n: nat, xs: seq<T>, m: nat)
    requires p(at, size) == Parsed(x, n) && Many(p, at + n, size - n, |xs|) == Parsed(xs, m)
    ensures Many(p, at, size, |xs| + 1) == Before(x, n, Parsed(xs, m))
  {
    assert Many(p, at, size, |xs| + 1) == Before(x, n, Many(p, at + n, size - n, |xs|));
  }

  lemma ChainFirst<T>(p: Parser<T>, more: (nat, int) -> bool, at: nat, size: int, x: T, n: nat)
    requires p(at, size) == Parsed(x, n) && more(at + n, size - n) && n > 0 && size > 0
    ensures Chain(p, more, at, size) == Before(x, n, Chain(p, more, at + n, size - n))
  {
  }

  lemma ChainLast<T>(p: Parser<T>, more: (nat, int) -> bool, at: nat, size: int, x: T, n: nat)
    requires p(at, size) == Parsed(x, n) && !more(at + n, size - n)
    ensures Chain(p, more, at, size) == Parsed([x], n)
  {
  }

  /** Recognises where another record of the same list starts. */
  ghost predicate SeenAt<T>(more: (nat, int) -> bool, print_: T -> seq<byte>, mem: Memory, x: T, a: nat, size: int) {
    Holds(mem, a, print_(x)) && size >= |print_(x)| ==> more(a, size)
  }

  ghost predicate Seen<T>(more: (nat, int) -> bool, print_: T -> seq<byte>, mem: Memory, items: seq<T>) {
    items == [] || ((forall a: nat, size: int :: SeenAt(more, print_, mem, items[0], a, size))
                    && Seen(more, print_, mem, items[1..]))
  }

  ghost predicate NonEmpty<T>(print_: T -> seq<byte>, items: seq<T>) {
    items == [] || (print_(items[0]) != [] && NonEmpty(print_, items[1..]))
  }

  lemma {:induction false} ChainUndoesPrintMany<T>(
    p: Parser<T>, more: (nat, int) -> bool, print_: T -> seq<byte>, next: (nat, int) -> bool, mem: Memory,
    at: nat, items: seq<T>, left: nat)
    requires items != [] && NonEmpty(print_, items)
    requires Undone(p, print_, next, mem, items) && Seen(more, print_, mem, items[1..])
    requires Holds(mem, at, PrintMany(print_, items))
    requires next(at + |PrintMany(print_, items)|, left)
    requires !more(at + |PrintMany(print_, items)|, left)
    ensures Chain(p, more, at, |PrintMany(print_, items)| + left) == Parsed(items, |PrintMany(print_, items)|)
    ensures next(at, |PrintMany(print_, items)| + left)
    decreases |items|
  {
    hide Chain;
    var first, others := print_(items[0]), PrintMany(print_, items[1..]);
    var size := |first| + |others| + left;
    HoldsParts(mem, at, first, others);
    assert [items[0]] + items[1..] == items;
    if |items| > 1 {
      ChainUndoesPrintMany(p, more, print_, next, mem, at + |first|, items[1..], left);
      HoldsParts(mem, at + |first|, print_(items[1]), PrintMany(print_, items[1..][1..]));
      assert SeenAt(more, print_, mem, items[1], at + |first|, |others| + left);
      assert UndoneAt(p, print_, next, mem, items[0], at, size);
      ChainFirst(p, more, at, size, items[0], |first|);
    } else {
      assert others == [] && items == [items[0]];
      assert UndoneAt(p, print_, next, mem, items[0], at, size);
      ChainLast(p, more, at, size, items[0], |first|);
    }
  }
}
