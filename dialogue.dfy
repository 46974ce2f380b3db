/**
 * The dialogue box: a text, a list of labelled options and a cursor on the
 * active option. Choosing Leave ends the conversation; choosing Info opens
 * a nested dialogue.
 */
module Dialogue {
  datatype DialogueOption =
    | Leave
    | Info(text: string, options: seq<(string, DialogueOption)>)

  /** `increment` on the cursor: one down the list, stopping at the last option. */
  function Next(active: nat, len: nat): (r: nat)
    requires len >= 1
    ensures active < len ==> r < len
    ensures r == active || r == active + 1
    ensures r == active <==> active == len - 1
  {
    if active != len - 1 then active + 1 else active
  }

  /** `decrement` on the cursor: one up the list, stopping at the first option. */
  function Prev(active: nat): (r: nat)
    ensures r == active || r + 1 == active
    ensures r == active <==> active == 0
  {
    if active != 0 then active - 1 else active
  }

  function NextN(active: nat, len: nat, k: nat): nat
    requires len >= 1
  {
    if k == 0 then active else Next(NextN(active, len, k - 1), len)
  }

  function PrevN(active: nat, k: nat): nat
  {
    if k == 0 then active else Prev(PrevN(active, k - 1))
  }

  function Min(a: int, b: int): int
  {
    if a <= b then a else b
  }

  /** Repeated increments move the cursor down and then stay on the last option. */
  lemma {:induction false} IncrementsSaturate(active: nat, len: nat, k: nat)
    requires active < len
    ensures NextN(active, len, k) == Min(active + k, len - 1)
  {
    if k > 0 {
      IncrementsSaturate(active, len, k - 1);
    }
  }

  /** Repeated decrements move the cursor up and then stay on the first option. */
  lemma {:induction false} DecrementsSaturate(active: nat, k: nat)
    ensures PrevN(active, k) == if k <= active then active - k else 0
  {
    if k > 0 {
      DecrementsSaturate(active, k - 1);
    }
  }

  class Dialogue {
    var inConversation: bool
    var text: string
    var options: seq<(string, DialogueOption)>
    var active: nat

    /** The cursor is on an option, or at 0 when there are none. */
    predicate Valid()
      reads this
    {
      active < |options| || (active == 0 && |options| == 0)
    }

    /** `Dialogue::default()`. */
    constructor ()
      ensures Valid() && !inConversation && text == [] && options == [] && active == 0
    {
      inConversation := false;
      text := [];
      options := [];
      active := 0;
    }

    method Activate(text: string, options: seq<(string, DialogueOption)>)
      modifies this
      ensures Valid()
      ensures this.text == text && this.options == options && active == 0 && inConversation
    {
      this.text := text;
      this.options := options;
      active := 0;
      inConversation := true;
    }

    /** `increment`: `options.len() - 1` underflows on an empty list, so the list must not be empty. */
    method Increment()
      requires |options| >= 1
      modifies this
      ensures options == old(options) && text == old(text) && inConversation == old(inConversation)
      ensures active == Next(old(active), |options|)
      ensures old(Valid()) ==> Valid()
    {
      if active != |options| - 1 {
        active := active + 1;
      }
    }

    method Decrement()
      modifies this
      ensures active == Prev(old(active))
      ensures old(Valid()) ==> Valid()
      ensures options == old(options) && text == old(text) && inConversation == old(inConversation)
    {
      if active != 0 {
        active := active - 1;
      }
    }

    /**
     * `select`: leaves the conversation, then runs the chosen option:
     * Leave stops there, Info re-activates with its text and options.
     */
    method Select()
      requires active < |options|
      modifies this
      ensures Valid()
      ensures var option := old(options[active].1);
        && (option.Leave? ==> !inConversation && text == old(text) && options == old(options) && active == old(active))
        && (option.Info? ==> inConversation && text == option.text && options == option.options && active == 0)
    {
      inConversation := false;
      var option := options[active].1;
      Execute(option);
    }

    /** `DialogueOption::execute` on this dialogue. */
    method Execute(option: DialogueOption)
      modifies this
      ensures option.Leave? ==>
        (text == old(text) && options == old(options) && active == old(active) && inConversation == old(inConversation))
      ensures option.Info? ==> inConversation && text == option.text && options == option.options && active == 0
    {
      match option
      case Leave =>
      case Info(info, opts) =>
        Activate(info, opts);
    }
  }
}
