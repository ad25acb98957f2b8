/** The numbers providers put on their events: all or none, and strictly rising. */
module Sequencing {
  import opened Tokens

  /** Either no event is numbered, or all are, from zero up and strictly rising. */
  ghost predicate InSequence(numbers: seq<Option<int>>) {
    || (forall i | 0 <= i < |numbers| :: numbers[i].None?)
    || ((forall i | 0 <= i < |numbers| :: numbers[i].Some? && numbers[i].value >= 0)
        && forall i, j | 0 <= i < j < |numbers| :: numbers[i].Some? && numbers[j].Some? && numbers[i].value < numbers[j].value)
  }

  /** What a machine that has seen these numbers remembers: whether there are any, and the last one. */
  ghost predicate Seen(numbers: seq<Option<int>>, mode: Option<bool>, last: int) {
    && last >= -1 && (mode.None? ==> numbers == [] && last == -1)
    && (mode == Some(false) ==> (forall i | 0 <= i < |numbers| :: numbers[i].None?) && last == -1)
    && (mode == Some(true) ==>
          && (forall i | 0 <= i < |numbers| :: numbers[i].Some? && 0 <= numbers[i].value <= last)
          && (forall i, j | 0 <= i < j < |numbers| :: numbers[i].Some? && numbers[j].Some? && numbers[i].value < numbers[j].value))
  }

  lemma SeenInSequence(numbers: seq<Option<int>>, mode: Option<bool>, last: int)
    requires Seen(numbers, mode, last)
    ensures InSequence(numbers)
  {
    if mode.Some? && mode.value {
      assert mode == Some(true);
      assert forall i | 0 <= i < |numbers| :: numbers[i].Some? && numbers[i].value >= 0;
    } else if mode.Some? {
      assert mode == Some(false);
    }
  }

  /** One more event: numbered if the others are, and above the last. */
  lemma SeenNext(numbers: seq<Option<int>>, mode: Option<bool>, last: int, number: Option<int>, next: int)
    requires Seen(numbers, mode, last)
    requires mode.Some? ==> mode.value == number.Some?
    requires if number.Some? then number.value > last && next == number.value else next == last
    ensures Seen(numbers + [number], Some(number.Some?), next)
  {
    var all := numbers + [number];
    if number.Some? {
      forall i | 0 <= i < |all|
        ensures all[i].Some? && 0 <= all[i].value <= next
        ensures i < |numbers| ==> all[i].value < next
      {
        if i < |numbers| {
          assert mode == Some(true) && all[i] == numbers[i];
        }
      }
      forall i, j | 0 <= i < j < |all|
        ensures all[i].value < all[j].value
      {
        if j < |numbers| {
          assert all[i] == numbers[i] && all[j] == numbers[j];
        }
      }
    } else {
      assert forall i | 0 <= i < |numbers| :: all[i] == numbers[i];
    }
  }
}
