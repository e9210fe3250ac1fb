/**
 How many events a multi-receive EO gets at a time, from the value given to
 `em_eo_create_multircv()` to the batch loop of the dispatcher, and when that loop ends.
 */
module ReceiveLimit {
  const EO_MULTIRCV_MAX_EVENTS: nat := 32
  const TWO16: nat := 0x1_0000

  /** `em_eo_create_multircv()`: 0 asks for the default. */
  function EoMaxEvents(param: nat): (n: nat)
    ensures param >= 1 ==> n == param
    ensures param == 0 ==> n == 32
  {
    if param == 0 then EO_MULTIRCV_MAX_EVENTS else param
  }

  /** The limit of a queue that is added to the EO: 16 bits of the EO's. */
  function QueueMaxEvents(param: nat): (n: nat)
    ensures 1 <= param < TWO16 ==> n == param
    ensures param == 0 ==> n == 32
    ensures param >= TWO16 ==> exists k: nat :: param == k * TWO16 + n
    ensures n < TWO16
  {
    assert EoMaxEvents(param) == EoMaxEvents(param) / TWO16 * TWO16 + EoMaxEvents(param) % TWO16;
    EoMaxEvents(param) % TWO16
  }

  /** The value is the default or survives the narrowing. */
  predicate Survives(param: nat) {
    param == 0 || param % TWO16 != 0
  }

  function Min(a: nat, b: nat): nat {
    if a <= b then a else b
  }

  /** The index j of the batch loop `while (egrp_end - j >= num) { ... j += num; }` after n passes, or where it left. */
  function AfterPasses(j: nat, end: nat, num: nat, n: nat): nat
    decreases n
  {
    if n == 0 || end - j < num then j else AfterPasses(j + num, end, num, n - 1)
  }

  /** The guard is false after some number of passes. */
  ghost predicate Leaves(j: nat, end: nat, num: nat) {
    exists n: nat :: end - AfterPasses(j, end, num, n) < num
  }

  lemma {:induction false} PassesProgress(j: nat, end: nat, num: nat, n: nat)
    requires j <= end && num >= 1
    ensures AfterPasses(j, end, num, n) >= j + n || end - AfterPasses(j, end, num, n) < num
    decreases n
  {
    if n > 0 && end - j >= num {
      PassesProgress(j + num, end, num, n - 1);
    }
  }

  lemma {:induction false} PassesStuck(j: nat, end: nat, n: nat)
    ensures AfterPasses(j, end, 0, n) == j
    decreases n
  {
    if n > 0 && end >= j {
      PassesStuck(j, end, n - 1);
    }
  }

  /** The batch loop ends just when its batches are not empty. */
  lemma LeavesIff(j: nat, end: nat, num: nat)
    requires j <= end
    ensures Leaves(j, end, num) <==> num >= 1
  {
    if num >= 1 {
      PassesProgress(j, end, num, end - j + 1);
    } else {
      forall n: nat ensures !(end - AfterPasses(j, end, num, n) < num) {
        PassesStuck(j, end, n);
      }
    }
  }

  /**
   The loop over the batches of any run of a burst, of any length, ends if and only
   if the value given at creation is 0 or not a multiple of 65536.
   */
  lemma MultircvEndsIff(param: nat, idx: nat, egrpCnt: nat)
    requires egrpCnt >= 1
    ensures Leaves(idx, idx + egrpCnt, Min(egrpCnt, QueueMaxEvents(param))) <==> Survives(param)
    ensures QueueMaxEvents(param) >= 1 <==> Survives(param)
  {
    LeavesIff(idx, idx + egrpCnt, Min(egrpCnt, QueueMaxEvents(param)));
  }

  /** An accepted value at which no pass moves the index, and the guard stays true. */
  lemma StuckAt65536(idx: nat, egrpCnt: nat, n: nat)
    requires egrpCnt >= 1
    ensures var num := Min(egrpCnt, QueueMaxEvents(65536));
            num == 0 && AfterPasses(idx, idx + egrpCnt, num, n) == idx && idx + egrpCnt - idx >= num
  {
    PassesStuck(idx, idx + egrpCnt, n);
  }
}
