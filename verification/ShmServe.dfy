/** What cmdServe publishes, and what its watchers therefore print. */
module ShmServe {
  import opened Common
  import opened ShmSlots
  import opened ShmProtocol

  /** The decimal digits of n in ASCII. */
  function Decimal(n: nat): (d: bytes)
    ensures |d| >= 1 && forall i :: 0 <= i < |d| ==> 48 <= d[i] < 58
  {
    if n < 10 then [48 + n] else Decimal(n / 10) + [48 + n % 10]
  }

  /** The number that decimal digits spell. */
  function Spelled(d: bytes): int { if d == [] then 0 else 10 * Spelled(d[..|d| - 1]) + d[|d| - 1] - 48 }

  lemma {:induction false} DecimalSpells(n: nat)
    ensures Spelled(Decimal(n)) == n
  {
    var d := Decimal(n);
    if n < 10 {
      assert d[..0] == [];
    } else {
      DecimalSpells(n / 10);
      assert d[..|d| - 1] == Decimal(n / 10);
    }
  }

  function Pow10(d: nat): (p: nat)
    ensures p >= 1
  {
    if d == 0 then 1 else 10 * Pow10(d - 1)
  }

  lemma {:induction false} DecimalLength(n: nat, d: nat)
    requires d >= 1 && n < Pow10(d)
    ensures |Decimal(n)| <= d
  {
    if n >= 10 {
      assert Pow10(1) == 10 * Pow10(0);
      DecimalLength(n / 10, d - 1);
    }
  }

  /** "k<k>" and "value-<k>". */
  function KeyOf(k: nat): bytes { [107] + Decimal(k) }
  function ValOf(k: nat): bytes { [118, 97, 108, 117, 101, 45] + Decimal(k) }

  function Serve(updates: UpdateCount): Config { Config(updates, k => (KeyOf(k), ValOf(k))) }

  /** The keys and values of capped updates fit their fields, so they are stored whole. */
  lemma PublishedIsStoredWhole(k: nat)
    requires k <= MAX_UPDATES
    ensures Stored(KeyOf(k), ValOf(k)) == (KeyOf(k), ValOf(k))
  {
    assert Pow10(7) == 10_000_000 by {
      assert Pow10(1) == 10;
      assert Pow10(3) == 1000;
      assert Pow10(5) == 100_000;
    }
    DecimalLength(k, 7);
    CStringOfNulFree(KeyOf(k));
    CStringOfNulFree(ValOf(k));
  }

  /** A printed line shows its own update exactly when its snapshot was fewer than eight updates ahead. */
  lemma LineShowsItsUpdateIff(updates: UpdateCount, events: seq<nat>, s: State, i: nat, j: nat)
    requires Reachable(Serve(updates), events, s) && i < |s.ws| && j < |s.ws[i].printed|
    ensures var l := s.ws[i].printed[j];
      (l.key, l.val) == (KeyOf(l.id), ValOf(l.id)) <==> l.snap - l.id < SLOT_COUNT
  {
    hide Run, Stored;
    PrintedInOrder(Serve(updates), events, s, i, j);
    var l := s.ws[i].printed[j];
    var shown := Newest(l.snap, l.id);
    PublishedIsStoredWhole(shown);
    if l.key == KeyOf(l.id) {
      assert Decimal(shown) == KeyOf(shown)[1..] == KeyOf(l.id)[1..] == Decimal(l.id);
      DecimalSpells(shown);
      DecimalSpells(l.id);
    }
  }

  /** So a watcher that first looks after nine or more updates prints update 1 with a later update's pair. */
  lemma LateWatcherPrintsAnotherPair(updates: UpdateCount, events: nat)
    requires 9 <= updates && events >= 1
    ensures exists s :: Reachable(Serve(updates), [events], s) && |s.ws| == 1 && |s.ws[0].printed| >= 1
                     && s.ws[0].printed[0].id == 1 && (s.ws[0].printed[0].key, s.ws[0].printed[0].val) != (KeyOf(1), ValOf(1))
  {
    hide Run, KeyOf, ValOf, Contents, WatcherInv;
    var c, s := Serve(updates), Init([events]);
    assert s.ws == [NewWatcher(events)];
    var serving := ServeRounds(c, s, updates);
    var t := Run(c, s, serving);
    ReachableInv(c, [events], t);
    var u := UnseenIsPrinted(c, t, 0);
    ReachableAlone(c, [events], t, 0, u);
    PrintedInOrder(c, [events], u, 0, 0);
    LineShowsItsUpdateIff(updates, [events], u, 0, 0);
  }
}
