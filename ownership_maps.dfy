/** The two boolean maps the card browser keeps per card id: which cards are owned
    and which double-faced cards show their back face. Both are updated the same way,
    by a functional toggle that spreads the previous map and overwrites one key. */
module OwnershipMaps {

  /** JavaScript's `!!m[id]`: a missing key reads as false. */
  predicate Truthy(m: map<string, bool>, id: string)
  {
    id in m && m[id]
  }

  /** The functional toggle: a copy of `m` in which `id` is set to the negation of
      its previous truthiness; every other key keeps its value. */
  function Toggle(m: map<string, bool>, id: string): (r: map<string, bool>)
    ensures r.Keys == m.Keys + {id}
    ensures r[id] == !Truthy(m, id)
    ensures forall k :: k in m && k != id ==> r[k] == m[k]
  {
    m[id := !Truthy(m, id)]
  }

  /** A toggle flips the truthiness of its own key and of no other. */
  lemma ToggleFlipsOnlyItsKey(m: map<string, bool>, id: string, k: string)
    ensures Truthy(Toggle(m, id), k) == if k == id then !Truthy(m, k) else Truthy(m, k)
  {
  }

  /** Toggling twice restores every key's truthiness (`!!owned[id]`). */
  lemma {:induction false} ToggleTwiceRestoresTruthiness(m: map<string, bool>, id: string)
    ensures forall k :: Truthy(Toggle(Toggle(m, id), id), k) == Truthy(m, k)
  {
    forall k
      ensures Truthy(Toggle(Toggle(m, id), id), k) == Truthy(m, k)
    {
      ToggleFlipsOnlyItsKey(m, id, k);
      ToggleFlipsOnlyItsKey(Toggle(m, id), id, k);
    }
  }

  /** ... but the map itself is not restored when the key was absent: it ends
      holding an explicit `false` for the key. */
  lemma ToggleTwiceKeepsExplicitFalse(m: map<string, bool>, id: string)
    requires id !in m
    ensures Toggle(Toggle(m, id), id) == m[id := false]
    ensures Toggle(Toggle(m, id), id) != m
  {
    assert id in Toggle(Toggle(m, id), id);
  }

  /** When the key was present, toggling twice gives back the very same map. */
  lemma ToggleTwiceIdentityWhenPresent(m: map<string, bool>, id: string)
    requires id in m
    ensures Toggle(Toggle(m, id), id) == m
  {
  }
}
