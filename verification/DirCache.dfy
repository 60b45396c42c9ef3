/** Listings under lowercased paths, and which of them a removal takes along. */
module DirCache {
  import opened Paths

  datatype Option<T> = None | Some(value: T)

  type Listing = seq<string>

  class DirCache {
    const fold: CaseMap
    const enabled: bool
    var listings: map<string, Listing>

    constructor (fold: CaseMap, ttlSecs: nat)
      ensures this.fold == fold && enabled == (ttlSecs > 0) && listings == map[]
    {
      this.fold := fold;
      enabled := ttlSecs > 0;
      listings := map[];
    }

    method Get(path: string) returns (entries: Option<Listing>)
      ensures entries == if enabled && Fold(fold, path) in listings then Some(listings[Fold(fold, path)]) else None
    {
      if !enabled {
        return None;
      }
      var key := Fold(fold, path);
      return if key in listings then Some(listings[key]) else None;
    }

    method Insert(path: string, entries: Listing) returns (shared: Listing)
      modifies this
      ensures shared == entries
      ensures listings == if enabled then old(listings)[Fold(fold, path) := entries] else old(listings)
    {
      if enabled {
        listings := listings[Fold(fold, path) := entries];
      }
      shared := entries;
    }

    /** The cache may drop listings whenever it likes. */
    method Evict(gone: set<string>)
      modifies this
      ensures listings == old(listings) - gone
    {
      listings := listings - gone;
    }

    method Invalidate(path: string)
      modifies this
      ensures listings == old(listings) - {Fold(fold, path)}
    {
      listings := listings - {Fold(fold, path)};
    }

    /** Drop every listing whose components extend those of `prefix`, and no other. */
    method InvalidatePrefix(prefix: string)
      modifies this
      ensures listings ==
              map k | k in old(listings) && !(Components(Fold(fold, prefix)) <= Components(k)) :: old(listings)[k]
    {
      var folder := Fold(fold, prefix);
      var under := folder + "/";
      var rest := listings.Keys;
      while rest != {}
        invariant rest <= old(listings).Keys
        invariant listings == map k | k in old(listings) && (k in rest || !Under(folder, k)) :: old(listings)[k]
        decreases rest
      {
        var key :| key in rest;
        if key == folder || under <= key {
          listings := listings - {key};
        }
        rest := rest - {key};
      }
      forall k ensures Under(folder, k) <==> Components(folder) <= Components(k) {
        UnderIsComponentPrefix(folder, k);
      }
    }
  }
}
