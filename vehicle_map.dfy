/**
 The in-memory vehicle store: a map from identifier to vehicle, read by a
 full scan in every query. `WithinDimensions` and `NoneFits` say what
 `FindByDimensions` returns in terms of the stored map, and the class
 `VehicleMap` performs the scan proved against them; `FindAll` is proved to
 return the stored map itself and `FindByColorAndYear` returns a constant.
 The lemmas at the end state what the dimension filter promises its callers.
 */
module Repository {
  import opened Vehicles

  /** Both ends of the range are included. */
  predicate InRange(x: real, lo: real, hi: real)
  {
    lo <= x <= hi
  }

  /** The test `FindByDimensions` applies to each stored vehicle. */
  predicate FitsDimensions(v: Vehicle, minLength: real, maxLength: real, minWidth: real, maxWidth: real)
  {
    InRange(v.Length(), minLength, maxLength) && InRange(v.Width(), minWidth, maxWidth)
  }

  /** The entries of `db` whose vehicle fits the bounds, each under its own id. */
  function WithinDimensions(db: map<int, Vehicle>, minLength: real, maxLength: real, minWidth: real, maxWidth: real): (r: map<int, Vehicle>)
    ensures r.Keys <= db.Keys
    ensures forall k :: k in r ==> r[k] == db[k]
  {
    map k | k in db && FitsDimensions(db[k], minLength, maxLength, minWidth, maxWidth) :: db[k]
  }

  /** No stored vehicle fits the bounds. */
  predicate NoneFits(db: map<int, Vehicle>, minLength: real, maxLength: real, minWidth: real, maxWidth: real)
  {
    forall k :: k in db ==> !FitsDimensions(db[k], minLength, maxLength, minWidth, maxWidth)
  }

  /** A non-empty set has a member (lets a scan pick its next key). */
  lemma EmptyIfNoMember(s: set<int>)
    ensures (forall x :: x !in s) ==> s == {}
  {
    if forall x :: x !in s {
      assert s == {};
    }
  }

  /** A map has size zero exactly when it has no key (lets a scan read `len(v) == 0` as "nothing matched"). */
  lemma SizeZeroIffNoKey(m: map<int, Vehicle>)
    ensures |m| == 0 <==> forall k :: k !in m
  {
    if |m| == 0 {
      assert m.Keys == {};
    }
    if forall k :: k !in m {
      assert m == map[];
    }
  }

  class VehicleMap {
    /** The vehicles, keyed by identifier. */
    var db: map<int, Vehicle>

    /** `NewVehicleMap`: an empty store for `nil`, otherwise exactly the given map. */
    constructor (db: Option<map<int, Vehicle>>)
      ensures db.None? ==> this.db == map[]
      ensures db.Some? ==> this.db == db.value
    {
      var defaultDb: map<int, Vehicle> := map[];
      if db.Some? {
        defaultDb := db.value;
      }
      this.db := defaultDb;
    }

    /** A copy of every entry of the store, built entry by entry; never an error. */
    method FindAll() returns (v: map<int, Vehicle>, err: Option<Error>)
      ensures v == db
      ensures err == None
    {
      v := map[];
      var rest := db.Keys;
      while rest != {}
        invariant rest <= db.Keys
        invariant v.Keys == db.Keys - rest
        invariant forall k :: k in v ==> v[k] == db[k]
        decreases rest
      {
        EmptyIfNoMember(rest);
        var key :| key in rest;
        v := v[key := db[key]];
        rest := rest - {key};
      }
      assert v.Keys == db.Keys;
      assert forall k :: k in v ==> v[k] == db[k];
      err := None;
    }

    /** Not implemented in the store: whatever the color and the year, the
        result is empty and there is no error. */
    method FindByColorAndYear(color: string, year: int) returns (v: map<int, Vehicle>, err: Option<Error>)
      ensures v == map[]
      ensures err == None
    {
      v := map[];
      err := None;
    }

    /** The entries whose length and width both lie within the inclusive
        bounds, each with its stored vehicle; `ErrorVehicleNotFound` exactly
        when nothing matches. */
    method FindByDimensions(minLength: real, maxLength: real, minWidth: real, maxWidth: real)
      returns (v: map<int, Vehicle>, err: Option<Error>)
      ensures forall k :: k in v <==> k in db && FitsDimensions(db[k], minLength, maxLength, minWidth, maxWidth)
      ensures forall k :: k in v ==> v[k] == db[k]
      ensures v == WithinDimensions(db, minLength, maxLength, minWidth, maxWidth)
      ensures err == Some(ErrorVehicleNotFound) <==> NoneFits(db, minLength, maxLength, minWidth, maxWidth)
      ensures err == None <==> !NoneFits(db, minLength, maxLength, minWidth, maxWidth)
    {
      v := map[];
      var rest := db.Keys;
      while rest != {}
        invariant rest <= db.Keys
        invariant forall k :: k in v <==> k in db && k !in rest && FitsDimensions(db[k], minLength, maxLength, minWidth, maxWidth)
        invariant forall k :: k in v ==> v[k] == db[k]
        decreases rest
      {
        EmptyIfNoMember(rest);
        var key :| key in rest;
        var value := db[key];
        if value.Length() >= minLength && value.Length() <= maxLength && value.Width() >= minWidth && value.Width() <= maxWidth {
          v := v[key := value];
        }
        rest := rest - {key};
      }
      SizeZeroIffNoKey(v);
      if |v| == 0 {
        err := Some(ErrorVehicleNotFound);
        return;
      }
      err := None;
    }
  }

  /** The entries whose length lies within the bounds. */
  function WithinLength(db: map<int, Vehicle>, minLength: real, maxLength: real): (r: map<int, Vehicle>)
  {
    map k | k in db && InRange(db[k].Length(), minLength, maxLength) :: db[k]
  }

  /** The entries whose width lies within the bounds. */
  function WithinWidth(db: map<int, Vehicle>, minWidth: real, maxWidth: real): (r: map<int, Vehicle>)
  {
    map k | k in db && InRange(db[k].Width(), minWidth, maxWidth) :: db[k]
  }

  /** Not found is reported exactly when the filtered map is empty. */
  lemma NotFoundIffEmpty(db: map<int, Vehicle>, minLength: real, maxLength: real, minWidth: real, maxWidth: real)
    ensures NoneFits(db, minLength, maxLength, minWidth, maxWidth)
        <==> WithinDimensions(db, minLength, maxLength, minWidth, maxWidth) == map[]
  {
    var r := WithinDimensions(db, minLength, maxLength, minWidth, maxWidth);
    if NoneFits(db, minLength, maxLength, minWidth, maxWidth) {
      assert forall k :: k !in r;
      SizeZeroIffNoKey(r);
      assert r == map[];
    }
  }

  /** Bounds with the minimum above the maximum, on either axis, match nothing. */
  lemma InvertedBoundsNotFound(db: map<int, Vehicle>, minLength: real, maxLength: real, minWidth: real, maxWidth: real)
    requires minLength > maxLength || minWidth > maxWidth
    ensures NoneFits(db, minLength, maxLength, minWidth, maxWidth)
    ensures WithinDimensions(db, minLength, maxLength, minWidth, maxWidth) == map[]
  {
    NotFoundIffEmpty(db, minLength, maxLength, minWidth, maxWidth);
  }

  /** A stored vehicle that sits exactly on a bound is kept: both ends of
      both ranges are inclusive. */
  lemma BoundsInclusive(db: map<int, Vehicle>, k: int, minLength: real, maxLength: real, minWidth: real, maxWidth: real)
    requires k in db
    requires minLength <= maxLength && minWidth <= maxWidth
    requires db[k].Length() == minLength || db[k].Length() == maxLength
    requires db[k].Width() == minWidth || db[k].Width() == maxWidth
    ensures k in WithinDimensions(db, minLength, maxLength, minWidth, maxWidth)
    ensures WithinDimensions(db, minLength, maxLength, minWidth, maxWidth)[k] == db[k]
  {
  }

  /** Widening the bounds never loses an entry and never changes one. */
  lemma WideningKeepsMatches(db: map<int, Vehicle>,
                             minLength: real, maxLength: real, minWidth: real, maxWidth: real,
                             minLength': real, maxLength': real, minWidth': real, maxWidth': real)
    requires minLength' <= minLength && maxLength <= maxLength'
    requires minWidth' <= minWidth && maxWidth <= maxWidth'
    ensures WithinDimensions(db, minLength, maxLength, minWidth, maxWidth).Keys
         <= WithinDimensions(db, minLength', maxLength', minWidth', maxWidth').Keys
    ensures forall k :: k in WithinDimensions(db, minLength, maxLength, minWidth, maxWidth) ==>
      WithinDimensions(db, minLength, maxLength, minWidth, maxWidth)[k]
        == WithinDimensions(db, minLength', maxLength', minWidth', maxWidth')[k]
  {
    var narrow := WithinDimensions(db, minLength, maxLength, minWidth, maxWidth);
    var wide := WithinDimensions(db, minLength', maxLength', minWidth', maxWidth');
    forall k | k in narrow
      ensures k in wide
    {
      assert FitsDimensions(db[k], minLength', maxLength', minWidth', maxWidth');
    }
  }

  /** When every stored vehicle fits, the filter returns the whole store,
      the same map `FindAll` returns. */
  lemma AllFitGivesStore(db: map<int, Vehicle>, minLength: real, maxLength: real, minWidth: real, maxWidth: real)
    requires forall k :: k in db ==> FitsDimensions(db[k], minLength, maxLength, minWidth, maxWidth)
    ensures WithinDimensions(db, minLength, maxLength, minWidth, maxWidth) == db
  {
    var r := WithinDimensions(db, minLength, maxLength, minWidth, maxWidth);
    forall k | k in db
      ensures k in r
    {
      assert FitsDimensions(db[k], minLength, maxLength, minWidth, maxWidth);
    }
    assert r.Keys == db.Keys;
  }

  /** The filter never returns more entries than the store holds. */
  lemma MatchesAtMostStore(db: map<int, Vehicle>, minLength: real, maxLength: real, minWidth: real, maxWidth: real)
    ensures |WithinDimensions(db, minLength, maxLength, minWidth, maxWidth)| <= |db|
  {
    var r := WithinDimensions(db, minLength, maxLength, minWidth, maxWidth);
    SubsetNoLarger(r.Keys, db.Keys);
    assert |r| == |r.Keys| && |db| == |db.Keys|;
  }

  /** A subset of a finite set is no larger than the set. */
  lemma {:induction false} SubsetNoLarger(a: set<int>, b: set<int>)
    requires a <= b
    ensures |a| <= |b|
    decreases a
  {
    EmptyIfNoMember(a);
    if a != {} {
      var x :| x in a;
      SubsetNoLarger(a - {x}, b - {x});
    }
  }

  /** Filtering a result again with the same bounds changes nothing. */
  lemma FilterIdempotent(db: map<int, Vehicle>, minLength: real, maxLength: real, minWidth: real, maxWidth: real)
    ensures var r := WithinDimensions(db, minLength, maxLength, minWidth, maxWidth);
            WithinDimensions(r, minLength, maxLength, minWidth, maxWidth) == r
  {
  }

  /** The dimension filter is the length filter and the width filter applied
      one after the other, in either order. */
  lemma AxesCompose(db: map<int, Vehicle>, minLength: real, maxLength: real, minWidth: real, maxWidth: real)
    ensures WithinDimensions(db, minLength, maxLength, minWidth, maxWidth)
         == WithinWidth(WithinLength(db, minLength, maxLength), minWidth, maxWidth)
    ensures WithinDimensions(db, minLength, maxLength, minWidth, maxWidth)
         == WithinLength(WithinWidth(db, minWidth, maxWidth), minLength, maxLength)
  {
    var r := WithinDimensions(db, minLength, maxLength, minWidth, maxWidth);
    var lw := WithinWidth(WithinLength(db, minLength, maxLength), minWidth, maxWidth);
    var wl := WithinLength(WithinWidth(db, minWidth, maxWidth), minLength, maxLength);
    forall k | k in lw
      ensures k in r
    {
      assert k in WithinLength(db, minLength, maxLength);
    }
    forall k | k in wl
      ensures k in r
    {
      assert k in WithinWidth(db, minWidth, maxWidth);
    }
    forall k | k in r
      ensures k in lw && k in wl
    {
      assert k in WithinLength(db, minLength, maxLength);
      assert k in WithinWidth(db, minWidth, maxWidth);
    }
    assert r.Keys == lw.Keys;
    assert r.Keys == wl.Keys;
  }
}
