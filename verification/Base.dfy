/** Small definitions shared by every module: options and a little arithmetic. */
module Base {

  datatype Option<+T> = None | Some(value: T)

  /** Milliseconds since some epoch; may be negative because a look-back threshold may be. */
  type Time = int

  /** Keys of the Redis service: keys with different prefixes differ. */
  datatype RedisKey = JobLock(id: nat) | SchedulerTick | Login(who: string)

  function Min(a: int, b: int): int {
    if a < b then a else b
  }

  function Max(a: int, b: int): int {
    if a < b then b else a
  }

  function Pow2(n: nat): nat {
    if n == 0 then 1 else 2 * Pow2(n - 1)
  }

  lemma {:induction false} Pow2Monotone(m: nat, n: nat)
    requires m <= n
    ensures 1 <= Pow2(m) <= Pow2(n)
    decreases n
  {
    if n == 0 {
    } else if m < n {
      Pow2Monotone(m, n - 1);
    } else {
      Pow2Monotone(m - 1, n - 1);
    }
  }

  lemma MulMono(a: nat, b: nat, c: nat)
    requires a <= b
    ensures a * c <= b * c && c * a <= c * b
  {
  }
}
