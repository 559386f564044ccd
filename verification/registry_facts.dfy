/** Properties of the registry that relate several of its operations. */
module RegistryFacts {
  import opened Wrappers
  import opened Text
  import opened Registry

  lemma ChatKeyNames(k: Key)
    ensures k.Fwd? ==> StartsWith(KeyName(k), FwdPrefix)
    ensures k.Rev? || k.RevBlank? ==> StartsWith(KeyName(k), RevPrefix)
  {
    if k.Fwd? {
      assert KeyName(k)[..|FwdPrefix|] == FwdPrefix;
    } else if k.Rev? {
      assert KeyName(k)[..|RevPrefix|] == RevPrefix;
    }
  }

  /** After the startup purge no key of either chat family is left, every other
      key keeps its value, and the registry invariant holds. */
  lemma PurgeClearsChatKeys(store: Store)
    requires Canonical(store)
    ensures forall k :: k in Purge(store) ==> !IsChatKey(k)
    ensures forall k :: k in store && !IsChatKey(k) ==> k in Purge(store) && Purge(store)[k] == store[k]
    ensures WellTyped(Purge(store))
    ensures Canonical(Purge(store))
  {
    var r := Purge(store);
    forall k | k in r ensures !IsChatKey(k) {
      ChatKeyNames(k);
    }
  }
}
