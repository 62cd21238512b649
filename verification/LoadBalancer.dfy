// The round-robin load balancer: which worker each call of retain names.
module LoadBalancer {
  import opened Basics

  const INT_RANGE: int := 0x1_0000_0000

  type Int32 = x: int | INT_MIN <= x <= INT_MAX

  /** The atomic counter wraps around. */
  function Increment(n: Int32): Int32 {
    if n == INT_MAX then INT_MIN else n + 1
  }

  /** The remainder of C++: it has the sign of the dividend. */
  function Remainder(a: int, b: int): int
    requires b != 0
  {
    var size := if b < 0 then -b else b;
    if a >= 0 then a % size else -((-a) % size)
  }

  /** What retain answers when the counter stands at `next`. */
  function Pick(min: int, mod: int, next: int): int
    requires mod != 0
  {
    min + Remainder(next, mod)
  }

  /** The counter after n calls. */
  function Counter(min: Int32, n: nat): Int32 {
    if n == 0 then min else Increment(Counter(min, n - 1))
  }

  /** The answer of call number n, counted from 0. */
  function Answer(min: Int32, max: Int32, n: nat): int
    requires max - min + 1 != 0
  {
    Pick(min, max - min + 1, Counter(min, n))
  }

  function Answers(min: Int32, max: Int32, n: nat): seq<int>
    requires max - min + 1 != 0
  {
    if n == 0 then [] else Answers(min, max, n - 1) + [Answer(min, max, n - 1)]
  }

  /** How many of the first n calls named the worker v. */
  function Count(min: Int32, max: Int32, n: nat, v: int): nat
    requires min <= max
  {
    if n == 0 then 0 else Count(min, max, n - 1, v) + if Answer(min, max, n - 1) == v then 1 else 0
  }

  class LoadBalancerRR {
    var min: Int32
    var max: Int32
    var mod: Int32
    var next: Int32
    ghost var answers: seq<int>

    ghost predicate Valid()
      reads this
    {
      && mod == max - min + 1 != 0
      && next == Counter(min, |answers|) && answers == Answers(min, max, |answers|)
    }

    /** Not set up yet. */
    constructor ()
      ensures answers == []
    {
      min, max, mod, next, answers := 0, 0, 0, 0, [];
    }

    /** Any range whose size is an int, though retain divides by a size of 0. */
    method Setup(min: Int32, max: Int32) returns (ok: bool)
      requires INT_MIN <= max - min + 1 <= INT_MAX
      modifies this
      ensures ok && this.min == min && this.max == max && mod == max - min + 1 && next == min && answers == []
      ensures Valid() <==> max - min + 1 != 0
    {
      this.min, this.max, next, mod := min, max, min, max - min + 1;
      answers := [];
      return true;
    }

    method Retain(token: nat) returns (r: int)
      requires Valid()
      modifies this`next, this`answers
      ensures Valid() && r == Answer(min, max, |old(answers)|) && answers == old(answers) + [r]
      ensures 0 <= min <= max && min + |old(answers)| <= INT_MAX ==> min <= r <= max
    {
      if 0 <= min <= max && min + |answers| <= INT_MAX { InRangeBeforeWrap(min, max, |answers|); }
      r := Pick(min, mod, next);
      next := Increment(next);
      answers := answers + [r];
    }

    method Release(token: nat)
      requires Valid()
      ensures Valid()
    {
    }
  }

  lemma {:induction false} CounterBeforeWrap(min: Int32, n: nat)
    requires min + n <= INT_MAX
    ensures Counter(min, n) == min + n
  {
    if n > 0 { CounterBeforeWrap(min, n - 1); }
  }

  /** A number cut to 32 bits and read as signed. */
  function Wrapped(x: int): (r: Int32)
    ensures INT_MIN <= x <= INT_MAX ==> r == x
  {
    (x - INT_MIN) % INT_RANGE + INT_MIN
  }

  lemma WrappedNext(x: int)
    ensures Wrapped(x + 1) == Increment(Wrapped(x))
  {
    var q, t := (x - INT_MIN) / INT_RANGE, (x - INT_MIN) % INT_RANGE;
    assert x - INT_MIN == INT_RANGE * q + t;
    if t + 1 == INT_RANGE {
      UniqueRemainder(x + 1 - INT_MIN, INT_RANGE, q + 1, 0);
    } else {
      UniqueRemainder(x + 1 - INT_MIN, INT_RANGE, q, t + 1);
    }
  }

  /** The counter in closed form. */
  lemma {:induction false} CounterIs(min: Int32, n: nat)
    ensures Counter(min, n) == Wrapped(min + n)
  {
    hide Wrapped;
    if n > 0 {
      CounterIs(min, n - 1);
      WrappedNext(min + n - 1);
    }
  }

  /** Answer number n is in range exactly when min + n, cut to 32 bits, is not negative
      or is a multiple of the number of workers. */
  lemma InRangeIff(min: Int32, max: Int32, n: nat)
    requires 0 <= min <= max
    ensures min <= Answer(min, max, n) <= max
            <==> (Wrapped(min + n) >= 0 || Wrapped(min + n) % (max - min + 1) == 0)
  {
    hide Wrapped;
    CounterIs(min, n);
    var next: int, mod: int := Counter(min, n), max - min + 1;
    if next < 0 {
      assert (-next) % mod == 0 <==> next % mod == 0 by { NegatedMultiple(next, mod); }
    }
  }

  lemma NegatedMultiple(a: int, b: int)
    requires b > 0
    ensures (-a) % b == 0 <==> a % b == 0
  {
    if a % b == 0 {
      assert a == b * (a / b);
      UniqueRemainder(-a, b, -(a / b), 0);
    }
    if (-a) % b == 0 {
      assert -a == b * ((-a) / b);
      UniqueRemainder(a, b, -((-a) / b), 0);
    }
  }

  lemma Multiples(b: int, d: int)
    requires b > 0
    ensures (d >= 1 ==> b * d >= b) && (d <= -1 ==> b * d <= -b)
  {
  }

  lemma UniqueRemainder(a: int, b: int, q: int, r: int)
    requires 0 <= r < b && a == b * q + r
    ensures a / b == q && a % b == r
  {
    var p, t := a / b, a % b;
    assert a == b * p + t;
    assert b * (q - p) == b * q - b * p;
    Multiples(b, q - p);
  }

  /** Until the counter wraps every answer names one of the workers. */
  lemma InRangeBeforeWrap(min: Int32, max: Int32, n: nat)
    requires 0 <= min <= max && min + n <= INT_MAX
    ensures min <= Answer(min, max, n) <= max
    ensures Answer(min, max, n) == min + (min + n) % (max - min + 1)
  {
    CounterBeforeWrap(min, n);
  }

  /** The call after the counter has wrapped leaves the range, unless the number of workers divides 2^31. */
  lemma FirstWrappedAnswer(min: Int32, max: Int32)
    requires 0 <= min <= max
    ensures Answer(min, max, INT_MAX - min + 1) < min <==> INT_MIN % (max - min + 1) != 0
  {
    CounterBeforeWrap(min, INT_MAX - min);
    assert Counter(min, INT_MAX - min + 1) == INT_MIN;
    NegatedMultiple(INT_MIN, max - min + 1);
  }

  /** With three workers numbered from 1 that answer is -1, which no worker has. */
  lemma WrapLeavesRange()
    ensures Answer(1, 3, INT_MAX) == -1
  {
    CounterBeforeWrap(1, INT_MAX - 1);
    assert Counter(1, INT_MAX) == INT_MIN;
  }

  /** Among any max - min + 1 consecutive calls before the wrap exactly one names the worker v. */
  lemma EveryRoundNamesEachOnce(min: Int32, max: Int32, start: nat, v: int)
    requires 0 <= min <= v <= max && min + start + (max - min) <= INT_MAX
    ensures exists n: nat {:trigger Answer(min, max, n)} ::
              start <= n <= start + (max - min) && Answer(min, max, n) == v
              && forall k: nat :: start <= k <= start + (max - min) && Answer(min, max, k) == v ==> k == n
  {
    hide Answer;
    var mod := max - min + 1;
    var n := start + (v - min - (min + start)) % mod;
    var q := (v - min - (min + start)) / mod;
    assert v - min - (min + start) == mod * q + (n - start);
    assert min + n == mod * (-q) + (v - min);
    UniqueRemainder(min + n, mod, -q, v - min);
    InRangeBeforeWrap(min, max, n);
    assert Answer(min, max, n) == v;
    forall k: nat | start <= k <= start + (max - min) && Answer(min, max, k) == v
      ensures k == n
    {
      InRangeBeforeWrap(min, max, k);
      assert min + k == mod * ((min + k) / mod) + (v - min);
      assert k - n == mod * ((min + k) / mod + q);
      SmallMultiple(k - n, mod, (min + k) / mod + q);
    }
  }

  lemma SmallMultiple(d: int, mod: int, q: int)
    requires mod > 0 && -mod < d < mod && d == mod * q
    ensures d == 0
  {
    Multiples(mod, q);
  }

  /** Floor division grows by one at the multiples. */
  lemma NextQuotient(x: int, mod: int)
    requires mod > 0
    ensures (x + 1) / mod == x / mod + if (x + 1) % mod == 0 then 1 else 0
  {
    var q, r := x / mod, x % mod;
    assert x == mod * q + r;
    if r + 1 == mod {
      assert x + 1 == mod * (q + 1) + 0;
      UniqueRemainder(x + 1, mod, q + 1, 0);
    } else {
      UniqueRemainder(x + 1, mod, q, r + 1);
    }
  }

  lemma ShiftedRemainder(a: int, mod: int, t: int)
    requires 0 <= t < mod
    ensures (a - t) % mod == 0 <==> a % mod == t
  {
    if a % mod == t {
      UniqueRemainder(a - t, mod, a / mod, 0);
    }
    if (a - t) % mod == 0 {
      UniqueRemainder(a, mod, (a - t) / mod, t);
    }
  }

  /** The number of calls that named v, in closed form. */
  lemma {:induction false} CountIs(min: Int32, max: Int32, n: nat, v: int)
    requires 0 <= min <= v <= max && min + n <= INT_MAX + 1
    ensures var mod, a := max - min + 1, min - 1 - (v - min);
            Count(min, max, n, v) == (a + n) / mod - a / mod
  {
    hide Answer;
    if n > 0 {
      var mod, x := max - min + 1, min - 1 - (v - min) + (n - 1);
      CountIs(min, max, n - 1, v);
      InRangeBeforeWrap(min, max, n - 1);
      NextQuotient(x, mod);
      ShiftedRemainder(min + (n - 1), mod, v - min);
    }
  }

  lemma QuotientOfSum(a: int, n: nat, mod: int)
    requires mod > 0
    ensures n / mod <= (a + n) / mod - a / mod <= n / mod + 1
  {
    var q, r, p, t := a / mod, a % mod, n / mod, n % mod;
    assert a == mod * q + r && n == mod * p + t;
    assert mod * (q + p) == mod * q + mod * p;
    if r + t < mod {
      UniqueRemainder(a + n, mod, q + p, r + t);
    } else {
      assert mod * (q + p + 1) == mod * q + mod * p + mod;
      UniqueRemainder(a + n, mod, q + p + 1, r + t - mod);
    }
  }

  /** After any number of calls before the wrap no worker is more than one ahead of another. */
  lemma RoundRobinIsFair(min: Int32, max: Int32, n: nat, v: int, w: int)
    requires 0 <= min <= v <= max && min <= w <= max && min + n <= INT_MAX + 1
    ensures -1 <= Count(min, max, n, v) - Count(min, max, n, w) <= 1
    ensures n / (max - min + 1) <= Count(min, max, n, v) <= n / (max - min + 1) + 1
  {
    hide Count;
    CountIs(min, max, n, v);
    CountIs(min, max, n, w);
    QuotientOfSum(min - 1 - (v - min), n, max - min + 1);
    QuotientOfSum(min - 1 - (w - min), n, max - min + 1);
  }

  /** No answer is above the range. Workers numbered from 1 stand for inboxes 1 and up,
      and after the wrap an answer may also be 0 or less. */
  lemma AnswersFromOne(workers: Int32, n: nat)
    requires 1 <= workers
    ensures Answer(1, workers, n) <= workers
    ensures var c: int := Wrapped(1 + n);
            && (Answer(1, workers, n) >= 1 <==> c >= 0 || (-c) % workers == 0)
            && (Answer(1, workers, n) == 0 <==> c < 0 && (-c) % workers == 1)
  {
    hide Wrapped;
    CounterIs(1, n);
  }
}
