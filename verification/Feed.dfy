/** One-to-many event delivery.

    All subscriptions of a feed live in one array, `sendCases`, whose first entry is the case that
    receives unsubscriptions.  While a value is sent, a prefix of the array (`active` entries) still
    waits for it; delivered cases are swapped behind the prefix, removed ones are shifted out.
    The environment (which channel accepts, which subscriber leaves, and when) is demonic choice.
 */
module FeedModel {

  type Chan = nat

  /** The private channel on which unsubscriptions arrive; no subscriber can hold it. */
  const REMOVE_SUB: Chan := 0

  /** How often `c` occurs at the positions `lo <= k < hi`. */
  ghost function Count(s: seq<Chan>, lo: nat, hi: nat, c: Chan): nat
    requires hi <= |s|
    decreases hi
  {
    if hi <= lo then 0 else Count(s, lo, hi - 1, c) + Hit(s[hi - 1], c)
  }

  function Hit(x: Chan, c: Chan): nat {
    if x == c then 1 else 0
  }

  lemma {:induction false} CountSplit(s: seq<Chan>, lo: nat, mid: nat, hi: nat, c: Chan)
    requires lo <= mid <= hi <= |s|
    ensures Count(s, lo, hi, c) == Count(s, lo, mid, c) + Count(s, mid, hi, c)
    decreases hi
  {
    if mid < hi {
      CountSplit(s, lo, mid, hi - 1, c);
    }
  }

  /** Ranges with the same contents count the same; `d` is the offset between them. */
  lemma {:induction false} CountShift(s: seq<Chan>, lo: nat, hi: nat, t: seq<Chan>, d: int, c: Chan)
    requires lo <= hi <= |s| && 0 <= lo - d && hi - d <= |t|
    requires forall k | lo <= k < hi :: s[k] == t[k - d]
    ensures Count(s, lo, hi, c) == Count(t, lo - d, hi - d, c)
    decreases hi
  {
    if lo < hi {
      CountShift(s, lo, hi - 1, t, d, c);
    }
  }

  lemma {:induction false} CountPositive(s: seq<Chan>, lo: nat, hi: nat, c: Chan)
    requires hi <= |s|
    ensures Count(s, lo, hi, c) > 0 <==> exists k :: lo <= k < hi && s[k] == c
    decreases hi
  {
    if lo < hi {
      CountPositive(s, lo, hi - 1, c);
    }
  }

  // ---------- effects of the two in-place operations ----------

  ghost function Swapped(s: seq<Chan>, i: nat, j: nat): seq<Chan>
    requires i < |s| && j < |s|
  {
    s[i := s[j]][j := s[i]]
  }

  ghost function Without(s: seq<Chan>, i: nat): seq<Chan>
    requires i < |s|
  {
    s[..i] + s[i + 1..]
  }

  /** Pulling position `i` out of a range. */
  lemma CountAt(s: seq<Chan>, lo: nat, i: nat, hi: nat, c: Chan)
    requires lo <= i < hi <= |s|
    ensures Count(s, lo, hi, c) == Count(s, lo, i, c) + Hit(s[i], c) + Count(s, i + 1, hi, c)
  {
    CountSplit(s, lo, i + 1, hi, c);
  }

  lemma SwapCounts(s: seq<Chan>, t: seq<Chan>, lo: nat, i: nat, n: nat, c: Chan)
    requires lo <= i < n <= |s| == |t|
    requires t[i] == s[n - 1] && t[n - 1] == s[i]
    // written with an offset, here 0, as `CountShift` has it
    requires forall k | 0 <= k < |s| && k != i && k != n - 1 :: s[k] == t[k - 0]
    ensures Count(s, lo, n, c) == Count(t, lo, n - 1, c) + Hit(s[i], c)
    ensures Count(t, n - 1, |t|, c) == Hit(s[i], c) + Count(s, n, |s|, c)
  {
    CountAt(s, lo, i, n, c);
    CountShift(s, lo, i, t, 0, c);
    CountAt(t, n - 1, n - 1, |t|, c);
    CountShift(s, n, |s|, t, 0, c);
    if i < n - 1 {
      CountAt(t, lo, i, n - 1, c);
      CountShift(s, i + 1, n - 1, t, 0, c);
    }
  }

  /** Swapping entry `i` of a prefix with the last one of it moves `s[i]` behind the prefix. */
  lemma SwapMovesOut(s: seq<Chan>, lo: nat, i: nat, n: nat, c: Chan)
    requires lo <= i < n <= |s|
    ensures var t := Swapped(s, i, n - 1);
            && Count(s, lo, n, c) == Count(t, lo, n - 1, c) + Hit(s[i], c)
            && Count(t, n - 1, |t|, c) == Hit(s[i], c) + Count(s, n, |s|, c)
            && Count(t, lo, |t|, c) == Count(s, lo, |s|, c)
  {
    var t := Swapped(s, i, n - 1);
    SwapCounts(s, t, lo, i, n, c);
    CountSplit(s, lo, n, |s|, c);
    CountSplit(t, lo, n - 1, |t|, c);
  }

  lemma DeleteBefore(s: seq<Chan>, t: seq<Chan>, lo: nat, i: nat, n: nat, c: Chan)
    requires lo <= i < n <= |s| && |t| == |s| - 1
    // the offsets with which `CountShift` moves the two parts
    requires forall k | 0 <= k < i :: s[k] == t[k - 0]
    requires forall k | i < k < |s| :: s[k] == t[k - 1]
    ensures Count(s, lo, n, c) == Count(t, lo, n - 1, c) + Hit(s[i], c)
    ensures Count(t, n - 1, |t|, c) == Count(s, n, |s|, c)
  {
    CountAt(s, lo, i, n, c);
    CountShift(s, lo, i, t, 0, c);
    CountShift(s, i + 1, n, t, 1, c);
    CountSplit(t, lo, i, n - 1, c);
    CountShift(s, n, |s|, t, 1, c);
  }

  /** Deleting entry `i` takes it out of the part it lies in and leaves the other part alone. */
  lemma DeleteTakesOut(s: seq<Chan>, lo: nat, i: nat, n: nat, c: Chan)
    requires lo <= i < |s| && lo <= n <= |s|
    ensures var t := Without(s, i);
            if i < n then Count(s, lo, n, c) == Count(t, lo, n - 1, c) + Hit(s[i], c) && Count(t, n - 1, |t|, c) == Count(s, n, |s|, c)
            else Count(t, lo, n, c) == Count(s, lo, n, c) && Count(s, n, |s|, c) == Count(t, n, |t|, c) + Hit(s[i], c)
  {
    var t := Without(s, i);
    if i < n {
      DeleteBefore(s, t, lo, i, n, c);
    } else {
      CountShift(s, lo, n, t, 0, c);
      DeleteBefore(s, t, n, i, |s|, c);
    }
  }

  // ---------- the books of one send ----------

  /** Deliveries and departures so far, per channel: `early` left before delivery, `late` after it. */
  datatype Books = Books(delivered: multiset<Chan>, early: multiset<Chan>, late: multiset<Chan>)

  /** Everyone present at the start either left before delivery, or was delivered to, or still waits;
      everyone delivered to either left afterwards or is still there. */
  ghost predicate Balanced(start: multiset<Chan>, b: Books, cases: seq<Chan>, active: nat)
    requires 1 <= active <= |cases|
  {
    forall c :: BalancedFor(start, b, cases, active, c)
  }

  ghost predicate BalancedFor(start: multiset<Chan>, b: Books, cases: seq<Chan>, active: nat, c: Chan)
    requires 1 <= active <= |cases|
  {
    && start[c] == b.early[c] + b.delivered[c] + Count(cases, 1, active, c)
    && b.delivered[c] == b.late[c] + Count(cases, active, |cases|, c)
  }

  lemma DeliverKeepsBalance(start: multiset<Chan>, b: Books, cases: seq<Chan>, active: nat, i: nat)
    requires 1 <= i < active <= |cases| && Balanced(start, b, cases, active)
    ensures Balanced(start, b.(delivered := b.delivered + multiset{cases[i]}), Swapped(cases, i, active - 1),
                     active - 1)
  {
    var cases' := Swapped(cases, i, active - 1);
    var b' := b.(delivered := b.delivered + multiset{cases[i]});
    var active' := active - 1;
    forall c ensures BalancedFor(start, b', cases', active', c) {
      assert BalancedFor(start, b, cases, active, c);
      SwapMovesOut(cases, 1, i, active, c);
    }
  }

  lemma RemoveKeepsBalance(start: multiset<Chan>, b: Books, cases: seq<Chan>, active: nat, i: nat)
    requires 1 <= active <= |cases| && 1 <= i < |cases| && Balanced(start, b, cases, active)
    ensures if i < active then Balanced(start, b.(early := b.early + multiset{cases[i]}), Without(cases, i), active - 1)
            else Balanced(start, b.(late := b.late + multiset{cases[i]}), Without(cases, i), active)
  {
    var b' := if i < active then b.(early := b.early + multiset{cases[i]}) else b.(late := b.late + multiset{cases[i]});
    var active' := if i < active then active - 1 else active;
    forall c ensures BalancedFor(start, b', Without(cases, i), active', c) {
      assert BalancedFor(start, b, cases, active, c);
      DeleteTakesOut(cases, 1, i, active, c);
    }
  }

  /** When nobody waits any more, a surviving subscription got the value exactly once and a removed
      one at most once, however often a channel is subscribed. */
  lemma ExactlyOnce(start: multiset<Chan>, b: Books, cases: seq<Chan>, c: Chan)
    requires 1 <= |cases| && Balanced(start, b, cases, 1)
    ensures var left := Count(cases, 1, |cases|, c);
            && left + b.early[c] + b.late[c] == start[c]
            && left <= b.delivered[c] <= start[c]
            && (b.early[c] == 0 && b.late[c] == 0 ==> b.delivered[c] == left == start[c])
            && (start[c] == 1 ==> b.delivered[c] == 1 - b.early[c])
  {
    assert BalancedFor(start, b, cases, 1, c);
  }

  // ---------- the subscriptions of a feed ----------

  /** The subscriptions are the cases behind the removal case together with the inbox. */
  ghost predicate Accounts(subscribed: multiset<Chan>, cases: seq<Chan>, inbox: seq<Chan>) {
    forall c :: AccountFor(subscribed, cases, inbox, c)
  }

  ghost predicate AccountFor(subscribed: multiset<Chan>, cases: seq<Chan>, inbox: seq<Chan>, c: Chan) {
    subscribed[c] == Count(cases, 1, |cases|, c) + Count(inbox, 0, |inbox|, c)
  }

  lemma AccountsAfterSwap(subscribed: multiset<Chan>, cases: seq<Chan>, inbox: seq<Chan>, i: nat, n: nat)
    requires Accounts(subscribed, cases, inbox) && 1 <= i < n <= |cases|
    ensures Accounts(subscribed, Swapped(cases, i, n - 1), inbox)
  {
    var cases' := Swapped(cases, i, n - 1);
    forall c ensures AccountFor(subscribed, cases', inbox, c) {
      assert AccountFor(subscribed, cases, inbox, c);
      SwapMovesOut(cases, 1, i, n, c);
    }
  }

  lemma AccountsAfterDelete(subscribed: multiset<Chan>, cases: seq<Chan>, inbox: seq<Chan>, i: nat)
    requires Accounts(subscribed, cases, inbox) && 1 <= i < |cases|
    ensures Accounts(subscribed - multiset{cases[i]}, Without(cases, i), inbox)
  {
    var s', cases' := subscribed - multiset{cases[i]}, Without(cases, i);
    forall c ensures AccountFor(s', cases', inbox, c) {
      assert AccountFor(subscribed, cases, inbox, c);
      DeleteTakesOut(cases, 1, i, |cases|, c);
    }
  }

  lemma AccountsAfterLeavingInbox(subscribed: multiset<Chan>, cases: seq<Chan>, inbox: seq<Chan>, i: nat)
    requires Accounts(subscribed, cases, inbox) && i < |inbox|
    ensures Accounts(subscribed - multiset{inbox[i]}, cases, Without(inbox, i))
  {
    var s', inbox' := subscribed - multiset{inbox[i]}, Without(inbox, i);
    forall c ensures AccountFor(s', cases, inbox', c) {
      assert AccountFor(subscribed, cases, inbox, c);
      DeleteTakesOut(inbox, 0, i, |inbox|, c);
    }
  }

  lemma AccountsAfterSubscribe(subscribed: multiset<Chan>, cases: seq<Chan>, inbox: seq<Chan>, ch: Chan)
    requires Accounts(subscribed, cases, inbox)
    ensures Accounts(subscribed + multiset{ch}, cases, inbox + [ch])
  {
    var s', inbox' := subscribed + multiset{ch}, inbox + [ch];
    forall c ensures AccountFor(s', cases, inbox', c) {
      assert AccountFor(subscribed, cases, inbox, c);
      CountShift(inbox, 0, |inbox|, inbox', 0, c);
    }
  }

  lemma AccountsAfterTakingInbox(subscribed: multiset<Chan>, cases: seq<Chan>, inbox: seq<Chan>)
    requires Accounts(subscribed, cases, inbox) && 1 <= |cases|
    ensures Accounts(subscribed, cases + inbox, [])
  {
    var cases', n := cases + inbox, |cases|;
    forall c ensures AccountFor(subscribed, cases', [], c) {
      assert AccountFor(subscribed, cases, inbox, c);
      CountSplit(cases', 1, n, |cases'|, c);
      CountShift(cases, 1, n, cases', 0, c);
      CountShift(cases', n, |cases'|, inbox, n, c);
    }
  }

  /** At the start of a send everybody waits. */
  lemma BalancedAtStart(subscribed: multiset<Chan>, cases: seq<Chan>)
    requires Accounts(subscribed, cases, []) && 1 <= |cases|
    ensures Balanced(subscribed, Books(multiset{}, multiset{}, multiset{}), cases, |cases|)
  {
    var b, active := Books(multiset{}, multiset{}, multiset{}), |cases|;
    forall c ensures BalancedFor(subscribed, b, cases, active, c) {
      assert AccountFor(subscribed, cases, [], c);
    }
  }

  class Feed {
    var sendCases: array<Chan>
    var len: nat
    var inbox: seq<Chan>
    ghost var subscribed: multiset<Chan>

    ghost function Cases(): seq<Chan>
      reads this, sendCases
      requires len <= sendCases.Length
    {
      sendCases[..len]
    }

    ghost predicate Valid()
      reads this, sendCases
    {
      && 1 <= len <= sendCases.Length
      && sendCases[0] == REMOVE_SUB
      && Accounts(subscribed, Cases(), inbox)
      && REMOVE_SUB !in subscribed
    }

    constructor ()
      ensures Valid() && subscribed == multiset{} && fresh(sendCases)
    {
      sendCases := new Chan[1](_ => REMOVE_SUB);
      len, inbox, subscribed := 1, [], multiset{};
    }

    /** New channels wait in the inbox until the next send. */
    method Subscribe(ch: Chan)
      requires Valid() && ch != REMOVE_SUB
      modifies this`inbox, this`subscribed
      ensures Valid() && subscribed == old(subscribed) + multiset{ch}
    {
      AccountsAfterSubscribe(subscribed, Cases(), inbox, ch);
      inbox := inbox + [ch];
      subscribed := subscribed + multiset{ch};
    }

    /** The first entry holding `ch`, or -1. */
    method Find(ch: Chan) returns (index: int)
      requires len <= sendCases.Length
      ensures -1 <= index < len
      ensures index >= 0 ==> sendCases[index] == ch && forall k | 0 <= k < index :: sendCases[k] != ch
      ensures index == -1 ==> forall k | 0 <= k < len :: sendCases[k] != ch
    {
      index := 0;
      while index < len
        invariant 0 <= index <= len
        invariant forall k | 0 <= k < index :: sendCases[k] != ch
      {
        if sendCases[index] == ch {
          return;
        }
        index := index + 1;
      }
      index := -1;
    }

    /** Shifts the entries behind `index` down by one, in place. */
    method Delete(index: nat)
      requires index < len <= sendCases.Length
      modifies this`len, sendCases
      ensures len == old(len) - 1
      ensures Cases() == Without(old(Cases()), index)
    {
      var i := index;
      while i < len - 1
        invariant len == old(len) && index <= i <= len - 1
        invariant forall k | 0 <= k < index :: sendCases[k] == old(sendCases[k])
        invariant forall k | index <= k < i :: sendCases[k] == old(sendCases[k + 1])
        invariant forall k | i <= k < sendCases.Length :: sendCases[k] == old(sendCases[k])
      {
        sendCases[i] := sendCases[i + 1];
        i := i + 1;
      }
      len := len - 1;
    }

    /** Swaps entry `index` behind the prefix of `active` entries. */
    method Deactivate(index: nat, active: nat) returns (active': nat)
      requires index < active <= len <= sendCases.Length
      modifies sendCases
      ensures active' == active - 1
      ensures Cases() == Swapped(old(Cases()), index, active - 1)
    {
      sendCases[index], sendCases[active - 1] := sendCases[active - 1], sendCases[index];
      active' := active - 1;
    }

    /** Deletes the first case holding a subscribed channel. */
    method RemoveCase(ch: Chan) returns (index: nat)
      requires Valid() && Count(Cases(), 1, len, ch) > 0
      modifies this`len, this`subscribed, sendCases
      ensures Valid() && subscribed == old(subscribed) - multiset{ch}
      ensures 1 <= index < old(len) == len + 1
      ensures old(Cases())[index] == ch && Cases() == Without(old(Cases()), index)
    {
      ghost var cases := Cases();
      assert AccountFor(subscribed, cases, inbox, ch);
      CountPositive(cases, 1, len, ch);
      var found := Find(ch);
      index := found;
      AccountsAfterDelete(subscribed, cases, inbox, index);
      Delete(index);
      subscribed := subscribed - multiset{ch};
    }

    /** Unsubscribes a channel while no send is in progress. */
    method Remove(ch: Chan)
      requires Valid() && ch in subscribed
      modifies this, sendCases
      ensures Valid() && subscribed == old(subscribed) - multiset{ch} && sendCases == old(sendCases)
    {
      if ch in inbox {
        var i :| 0 <= i < |inbox| && inbox[i] == ch;
        AccountsAfterLeavingInbox(subscribed, Cases(), inbox, i);
        inbox := inbox[..i] + inbox[i + 1..];
        subscribed := subscribed - multiset{ch};
      } else {
        assert AccountFor(subscribed, Cases(), inbox, ch);
        CountPositive(inbox, 0, |inbox|, ch);
        var _ := RemoveCase(ch);
      }
    }

    /** Moves the inbox into the case array, reallocating it. */
    method TakeInbox()
      requires Valid()
      modifies this
      ensures Valid() && inbox == [] && subscribed == old(subscribed) && fresh(sendCases)
    {
      var cases := new Chan[len + |inbox|];
      for i := 0 to len
        modifies cases
        invariant forall k | 0 <= k < i :: cases[k] == sendCases[k]
      {
        cases[i] := sendCases[i];
      }
      for i := 0 to |inbox|
        modifies cases
        invariant forall k | 0 <= k < len :: cases[k] == sendCases[k]
        invariant forall k | len <= k < len + i :: cases[k] == inbox[k - len]
      {
        cases[len + i] := inbox[i];
      }
      AccountsAfterTakingInbox(subscribed, Cases(), inbox);
      assert cases[..] == Cases() + inbox;
      sendCases, len := cases, cases.Length;
      assert Cases() == cases[..];
      inbox := [];
    }

    /** What other goroutines may do to the inbox during a send: any number of them subscribe, or leave again. */
    method InboxChanges()
      requires Valid()
      modifies this`inbox, this`subscribed
      ensures Valid()
    {
      var changes: nat :| 0 <= changes;
      for i := 0 to changes
        invariant Valid()
      {
        InboxChange();
      }
    }

    method InboxChange()
      requires Valid()
      modifies this`inbox, this`subscribed
      ensures Valid()
    {
      var ch, joins: bool, leaver: nat := *, *, *;
      if joins && ch != REMOVE_SUB {
        Subscribe(ch);
      } else if leaver < |inbox| {
        AccountsAfterLeavingInbox(subscribed, Cases(), inbox, leaver);
        subscribed := subscribed - multiset{inbox[leaver]};
        inbox := inbox[..leaver] + inbox[leaver + 1..];
      }
    }

    /** The fast path: offers the value to every waiting case without blocking; any subset accepts. */
    method TrySends(active0: nat, ghost start: multiset<Chan>, ghost b0: Books)
      returns (active: nat, sent: nat, ghost b: Books)
      requires Valid() && 1 <= active0 <= len && Balanced(start, b0, Cases(), active0)
      modifies sendCases
      ensures Valid() && 1 <= active <= active0 && Balanced(start, b, Cases(), active)
      ensures |b.delivered| == |b0.delivered| + sent && b.early == b0.early && b.late == b0.late
    {
      active, sent, b := active0, 0, b0;
      var i := 1;
      while i < active
        invariant 1 <= i && 1 <= active <= active0
        invariant Valid() && Balanced(start, b, Cases(), active)
        invariant |b.delivered| == |b0.delivered| + sent && b.early == b0.early && b.late == b0.late
        decreases active - i
      {
        var accepted: bool := *;
        if accepted {
          DeliverKeepsBalance(start, b, Cases(), active, i);
          AccountsAfterSwap(subscribed, Cases(), inbox, i, active);
          b := b.(delivered := b.delivered + multiset{sendCases[i]});
          sent := sent + 1;
          active := Deactivate(i, active);
        } else {
          i := i + 1;
        }
      }
    }

    /** Sends to all subscribers.  Every round of the blocking select either delivers to one waiting
        case or serves one unsubscription, so the send ends after finitely many rounds. */
    method Send() returns (nsent: nat, ghost b: Books)
      requires Valid()
      modifies this, sendCases
      ensures Valid() && fresh(sendCases)
      ensures nsent == |b.delivered|
      ensures Balanced(old(subscribed), b, Cases(), 1)
    {
      TakeInbox();
      nsent, b := 0, Books(multiset{}, multiset{}, multiset{});
      var active := len;
      ghost var start, backing := subscribed, sendCases;
      BalancedAtStart(subscribed, Cases());
      while true
        invariant Valid() && sendCases == backing && 1 <= active <= len
        invariant Balanced(start, b, Cases(), active)
        invariant nsent == |b.delivered|
        decreases active + len
      {
        var sent;
        active, sent, b := TrySends(active, start, b);
        nsent := nsent + sent;
        if active == 1 {
          break;
        }
        InboxChanges();
        var chosen: nat :| chosen < active;
        if chosen == 0 {
          var leaver: nat :| 1 <= leaver < len;  // whose unsubscription is received
          active, b := ServeRemoval(leaver, active, start, b);
        } else {
          DeliverKeepsBalance(start, b, Cases(), active, chosen);
          AccountsAfterSwap(subscribed, Cases(), inbox, chosen, active);
          b := b.(delivered := b.delivered + multiset{sendCases[chosen]});
          active := Deactivate(chosen, active);
          nsent := nsent + 1;
        }
      }
    }

    /** An unsubscription received during a send: the prefix shrinks too if the case was still waiting. */
    method ServeRemoval(leaver: nat, active0: nat, ghost start: multiset<Chan>, ghost b0: Books)
      returns (active: nat, ghost b: Books)
      requires Valid() && 1 <= leaver < len && 1 <= active0 <= len && Balanced(start, b0, Cases(), active0)
      modifies this`len, this`subscribed, sendCases
      ensures Valid() && 1 <= active <= active0 && active <= len == old(len) - 1
      ensures Balanced(start, b, Cases(), active) && b.delivered == b0.delivered
    {
      ghost var cases := Cases();
      active, b := active0, b0;
      assert cases[leaver] == sendCases[leaver];
      CountPositive(cases, 1, len, sendCases[leaver]);
      var index := RemoveCase(sendCases[leaver]);
      RemoveKeepsBalance(start, b, cases, active, index);
      if index < active {
        b := b.(early := b.early + multiset{cases[index]});
        active := active - 1;
      } else {
        b := b.(late := b.late + multiset{cases[index]});
      }
    }
  }
}
