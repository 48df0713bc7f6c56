/** The favorites store: an ordered list of favorite contacts persisted as one
    blob under a single storage key, with membership, append-if-absent,
    remove-by-id and toggle. */
module Storage {
  import opened Wrappers
  import opened Types

  /** The only error the store reports: the storage adapter refused a write. */
  datatype StorageError = WriteFailed

  // ---------------------------------------------------------------------------
  // The list operations the store is built from
  // ---------------------------------------------------------------------------

  /** `some` over the list: does an entry carry this id? */
  function Contains(favs: seq<FavoriteContact>, id: string): (r: bool)
    ensures r <==> exists i :: 0 <= i < |favs| && favs[i].id == id
  {
    if favs == [] then false
    else favs[0].id == id || Contains(favs[1..], id)
  }

  /** `findIndex` over the list: the first position carrying this id, or -1. */
  function FindIndex(favs: seq<FavoriteContact>, id: string): (r: int)
    ensures -1 <= r < |favs|
    ensures r == -1 <==> !Contains(favs, id)
    ensures 0 <= r ==> favs[r].id == id && forall j :: 0 <= j < r ==> favs[j].id != id
  {
    if favs == [] then -1
    else if favs[0].id == id then 0
    else
      var k := FindIndex(favs[1..], id);
      if k == -1 then -1 else k + 1
  }

  /** `filter` over the list: every entry whose id differs, in the original order. */
  function Without(favs: seq<FavoriteContact>, id: string): (r: seq<FavoriteContact>)
    ensures |r| <= |favs|
    ensures forall e :: e in r ==> e in favs && e.id != id
    ensures forall i :: 0 <= i < |favs| && favs[i].id != id ==> favs[i] in r
    ensures !Contains(r, id)
    ensures !Contains(favs, id) ==> r == favs
  {
    if favs == [] then []
    else if favs[0].id == id then Without(favs[1..], id)
    else [favs[0]] + Without(favs[1..], id)
  }

  /** The store's invariant: no two entries share an id. */
  predicate UniqueIds(favs: seq<FavoriteContact>)
  {
    forall i, j :: 0 <= i < |favs| && 0 <= j < |favs| && i != j ==> favs[i].id != favs[j].id
  }

  /** The entry `addFavorite` creates for a contact at time `now`. */
  function Entry(user: User, now: int): FavoriteContact
  {
    FavoriteContact(user.id, user, now)
  }

  /** The list `addFavorite` leaves behind when its write succeeds. */
  function Added(favs: seq<FavoriteContact>, user: User, now: int): seq<FavoriteContact>
  {
    if FindIndex(favs, user.id) == -1 then favs + [Entry(user, now)] else favs
  }

  /** The list `toggleFavorite` leaves behind when its write succeeds. */
  function Toggled(favs: seq<FavoriteContact>, user: User, now: int): seq<FavoriteContact>
  {
    if Contains(favs, user.id) then Without(favs, user.id) else Added(favs, user, now)
  }

  // ---------------------------------------------------------------------------
  // Properties of the list operations
  // ---------------------------------------------------------------------------

  /** Adding an absent id appends exactly one entry at the end and keeps every
      earlier entry in place; adding a present id changes nothing. */
  lemma AddedAppendsOrKeeps(favs: seq<FavoriteContact>, user: User, now: int)
    ensures Contains(favs, user.id) ==> Added(favs, user, now) == favs
    ensures !Contains(favs, user.id) ==>
      |Added(favs, user, now)| == |favs| + 1 &&
      Added(favs, user, now)[..|favs|] == favs &&
      Added(favs, user, now)[|favs|] == Entry(user, now)
    ensures Contains(Added(favs, user, now), user.id)
  {
    if !Contains(favs, user.id) {
      var r := Added(favs, user, now);
      assert r[|favs|].id == user.id;
    }
  }

  /** Adding twice is adding once, whatever the second call's clock reads. */
  lemma AddedIdempotent(favs: seq<FavoriteContact>, user: User, now1: int, now2: int)
    ensures Added(Added(favs, user, now1), user, now2) == Added(favs, user, now1)
  {
    AddedAppendsOrKeeps(favs, user, now1);
    AddedAppendsOrKeeps(Added(favs, user, now1), user, now2);
  }

  /** Appending an absent id keeps the ids unique. */
  lemma AddedPreservesUnique(favs: seq<FavoriteContact>, user: User, now: int)
    requires UniqueIds(favs)
    ensures UniqueIds(Added(favs, user, now))
  {
    AddedAppendsOrKeeps(favs, user, now);
    if !Contains(favs, user.id) {
      var r := Added(favs, user, now);
      forall i, j | 0 <= i < |r| && 0 <= j < |r| && i != j
        ensures r[i].id != r[j].id
      {
        if i < |favs| && j < |favs| {
          assert r[i] == favs[i] && r[j] == favs[j];
        } else if i < |favs| {
          assert r[i] == favs[i];
        } else {
          assert r[j] == favs[j];
        }
      }
    }
  }

  /** An id absent from a list is absent from what filtering it leaves. */
  lemma WithoutKeepsAbsent(favs: seq<FavoriteContact>, id: string, other: string)
    requires !Contains(favs, other)
    ensures !Contains(Without(favs, id), other)
  {
    var r := Without(favs, id);
    forall k | 0 <= k < |r| ensures r[k].id != other {
      assert r[k] in favs;
    }
  }

  /** Prepending an entry whose id the rest lacks keeps the ids unique. */
  lemma ConsUnique(x: FavoriteContact, rest: seq<FavoriteContact>)
    requires UniqueIds(rest) && !Contains(rest, x.id)
    ensures UniqueIds([x] + rest)
  {
    var r := [x] + rest;
    forall i, j | 0 <= i < |r| && 0 <= j < |r| && i != j
      ensures r[i].id != r[j].id
    {
      if i == 0 {
        assert r[j] == rest[j - 1];
      } else if j == 0 {
        assert r[i] == rest[i - 1];
      } else {
        assert r[i] == rest[i - 1] && r[j] == rest[j - 1];
      }
    }
  }

  /** The tail of a list with unique ids has unique ids and lacks the head's id. */
  lemma TailUnique(favs: seq<FavoriteContact>)
    requires favs != [] && UniqueIds(favs)
    ensures UniqueIds(favs[1..]) && !Contains(favs[1..], favs[0].id)
  {
    var tail := favs[1..];
    forall i, j | 0 <= i < |tail| && 0 <= j < |tail| && i != j
      ensures tail[i].id != tail[j].id
    {
      assert tail[i] == favs[i + 1] && tail[j] == favs[j + 1];
    }
    forall m | 0 <= m < |tail| ensures tail[m].id != favs[0].id {
      assert tail[m] == favs[m + 1];
    }
  }

  /** Filtering keeps the ids unique. */
  lemma {:induction false} WithoutPreservesUnique(favs: seq<FavoriteContact>, id: string)
    requires UniqueIds(favs)
    ensures UniqueIds(Without(favs, id))
  {
    if favs != [] {
      TailUnique(favs);
      WithoutPreservesUnique(favs[1..], id);
      if favs[0].id != id {
        WithoutKeepsAbsent(favs[1..], id, favs[0].id);
        ConsUnique(favs[0], Without(favs[1..], id));
      }
    }
  }

  /** Filtering distributes over concatenation: the surviving entries keep their
      relative order. */
  lemma {:induction false} WithoutConcat(a: seq<FavoriteContact>, b: seq<FavoriteContact>, id: string)
    ensures Without(a + b, id) == Without(a, id) + Without(b, id)
  {
    if a == [] {
      assert a + b == b;
    } else {
      assert (a + b)[1..] == a[1..] + b;
      WithoutConcat(a[1..], b, id);
    }
  }

  /** Filtering out the id of the one entry that carries it leaves its neighbours. */
  lemma WithoutAroundOne(before: seq<FavoriteContact>, x: FavoriteContact, after: seq<FavoriteContact>)
    requires !Contains(before, x.id) && !Contains(after, x.id)
    ensures Without(before + [x] + after, x.id) == before + after
  {
    assert Without([x], x.id) == [] by {
      assert [x][1..] == [];
    }
    WithoutConcat(before + [x], after, x.id);
    WithoutConcat(before, [x], x.id);
    assert before + [] == before;
  }

  /** No entry before the first occurrence of an id carries it. */
  lemma BeforeFirstAbsent(favs: seq<FavoriteContact>, id: string, k: int)
    requires 0 <= k < |favs| && forall j :: 0 <= j < k ==> favs[j].id != id
    ensures !Contains(favs[..k], id)
  {
    forall m | 0 <= m < k ensures favs[..k][m].id != id {
      assert favs[..k][m] == favs[m];
    }
  }

  /** In a list with unique ids, no entry after position k carries the id at k. */
  lemma AfterUniqueAbsent(favs: seq<FavoriteContact>, k: int)
    requires UniqueIds(favs) && 0 <= k < |favs|
    ensures !Contains(favs[k + 1..], favs[k].id)
  {
    var after := favs[k + 1..];
    forall m | 0 <= m < |after| ensures after[m].id != favs[k].id {
      assert after[m] == favs[k + 1 + m];
    }
  }

  /** In a list with unique ids, removing a present id deletes exactly the one
      entry at its position; all other entries stay, in order. */
  lemma RemoveDeletesOneEntry(favs: seq<FavoriteContact>, id: string)
    requires UniqueIds(favs)
    requires Contains(favs, id)
    ensures 0 <= FindIndex(favs, id)
    ensures Without(favs, id) == favs[..FindIndex(favs, id)] + favs[FindIndex(favs, id) + 1..]
  {
    var k := FindIndex(favs, id);
    var before, after := favs[..k], favs[k + 1..];
    assert favs == before + [favs[k]] + after;
    BeforeFirstAbsent(favs, id, k);
    AfterUniqueAbsent(favs, k);
    WithoutAroundOne(before, favs[k], after);
  }

  /** Toggling inverts membership. */
  lemma ToggledInvertsMembership(favs: seq<FavoriteContact>, user: User, now: int)
    ensures Contains(Toggled(favs, user, now), user.id) == !Contains(favs, user.id)
  {
    AddedAppendsOrKeeps(favs, user, now);
  }

  /** Toggling twice restores membership; starting from an absent id it restores
      the very same list. */
  lemma ToggleTwiceRestoresMembership(favs: seq<FavoriteContact>, user: User, now1: int, now2: int)
    ensures Contains(Toggled(Toggled(favs, user, now1), user, now2), user.id) == Contains(favs, user.id)
    ensures !Contains(favs, user.id) ==> Toggled(Toggled(favs, user, now1), user, now2) == favs
  {
    ToggledInvertsMembership(favs, user, now1);
    ToggledInvertsMembership(Toggled(favs, user, now1), user, now2);
    if !Contains(favs, user.id) {
      AddedAppendsOrKeeps(favs, user, now1);
      WithoutConcat(favs, [Entry(user, now1)], user.id);
      assert [Entry(user, now1)][1..] == [];
    }
  }

  /** Toggling keeps the ids unique. */
  lemma ToggledPreservesUnique(favs: seq<FavoriteContact>, user: User, now: int)
    requires UniqueIds(favs)
    ensures UniqueIds(Toggled(favs, user, now))
  {
    if Contains(favs, user.id) {
      WithoutPreservesUnique(favs, user.id);
    } else {
      AddedPreservesUnique(favs, user, now);
    }
  }

  // ---------------------------------------------------------------------------
  // The store
  // ---------------------------------------------------------------------------

  /** The favorites store over the device's key-value storage. `stored` is the
      value under the key "contact_favorites", already decoded: None when the key is absent or
      its blob does not parse as a list. `Date.now()` and the outcome of each
      write are parameters of the operations. */
  class StorageService {
    var stored: Option<seq<FavoriteContact>>

    constructor (initial: Option<seq<FavoriteContact>>)
      ensures stored == initial
    {
      stored := initial;
    }

    /** The list a read yields: the stored one, or the empty list. */
    function Favorites(): seq<FavoriteContact>
      reads this
    {
      match stored
      case Some(favs) => favs
      case None => []
    }

    /** Read the list; a missing key or an unreadable blob reads as empty. */
    method GetFavorites() returns (favs: seq<FavoriteContact>)
      ensures stored.Some? ==> favs == stored.value
      ensures stored.None? ==> favs == []
    {
      match stored {
        case Some(s) => favs := s;
        case None => favs := [];
      }
    }

    /** Is some stored entry's id equal to `userId`? */
    method IsFavorite(userId: string) returns (b: bool)
      ensures b <==> exists i :: 0 <= i < |Favorites()| && Favorites()[i].id == userId
    {
      var favorites := GetFavorites();
      assert favorites == Favorites();
      b := Contains(favorites, userId);
    }

    /** Replace the stored list with `favs`; when the adapter refuses the write,
        the old blob stays and the error is returned. */
    method SetItem(favs: seq<FavoriteContact>, writeFails: bool) returns (r: Result<(), StorageError>)
      modifies this
      ensures writeFails ==> r == Err(WriteFailed) && stored == old(stored)
      ensures !writeFails ==> r == Ok(()) && stored == Some(favs)
    {
      if writeFails {
        r := Err(WriteFailed);
      } else {
        stored := Some(favs);
        r := Ok(());
      }
    }

    /** Append `{id: user.id, user, timestamp: now}` unless the id is already
        there; nothing is written in that case. */
    method AddFavorite(user: User, now: int, writeFails: bool) returns (r: Result<(), StorageError>)
      modifies this
      ensures old(Contains(Favorites(), user.id)) ==> r == Ok(()) && stored == old(stored)
      ensures !old(Contains(Favorites(), user.id)) && !writeFails ==>
        r == Ok(()) && stored == Some(old(Favorites()) + [Entry(user, now)])
      ensures !old(Contains(Favorites(), user.id)) && writeFails ==>
        r == Err(WriteFailed) && stored == old(stored)
      ensures r.Ok? ==> Favorites() == Added(old(Favorites()), user, now)
      ensures old(UniqueIds(Favorites())) ==> UniqueIds(Favorites())
      ensures r.Ok? ==> Contains(Favorites(), user.id)
    {
      var favorites := GetFavorites();
      var newFavorite := Entry(user, now);
      var existingIndex := FindIndex(favorites, user.id);
      AddedAppendsOrKeeps(favorites, user, now);
      if UniqueIds(favorites) {
        AddedPreservesUnique(favorites, user, now);
      }
      if existingIndex == -1 {
        favorites := favorites + [newFavorite];
        r := SetItem(favorites, writeFails);
      } else {
        r := Ok(());
      }
    }

    /** Write back every entry whose id differs from `userId`. The list is
        written even when nothing was removed. */
    method RemoveFavorite(userId: string, writeFails: bool) returns (r: Result<(), StorageError>)
      modifies this
      ensures writeFails ==> r == Err(WriteFailed) && stored == old(stored)
      ensures !writeFails ==> r == Ok(()) && stored == Some(Without(old(Favorites()), userId))
      ensures old(UniqueIds(Favorites())) ==> UniqueIds(Favorites())
      ensures r.Ok? ==> !Contains(Favorites(), userId)
    {
      var favorites := GetFavorites();
      var filteredFavorites := Without(favorites, userId);
      if UniqueIds(favorites) {
        WithoutPreservesUnique(favorites, userId);
      }
      r := SetItem(filteredFavorites, writeFails);
    }

    /** Remove the contact when it is a favorite, add it otherwise, and return the
        new membership; a failed write is passed on to the caller. */
    method ToggleFavorite(user: User, now: int, writeFails: bool) returns (r: Result<bool, StorageError>)
      modifies this
      ensures r.Ok? <==> !writeFails
      ensures r.Err? ==> stored == old(stored)
      ensures r.Ok? ==> r.value == !old(Contains(Favorites(), user.id))
      ensures r.Ok? ==> stored == Some(Toggled(old(Favorites()), user, now))
      ensures r.Ok? ==> Contains(Favorites(), user.id) == r.value
      ensures old(UniqueIds(Favorites())) ==> UniqueIds(Favorites())
    {
      var isCurrentlyFavorite := IsFavorite(user.id);
      if isCurrentlyFavorite {
        var w := RemoveFavorite(user.id, writeFails);
        r := if w.Ok? then Ok(false) else Err(w.error);
      } else {
        var w := AddFavorite(user, now, writeFails);
        r := if w.Ok? then Ok(true) else Err(w.error);
      }
    }
  }

  /** Two toggles in a row whose writes succeed report opposite memberships and
      leave the original membership in place. */
  method ToggleTwice(service: StorageService, user: User, now1: int, now2: int)
      returns (first: Result<bool, StorageError>, second: Result<bool, StorageError>)
    modifies service
    ensures first.Ok? && second.Ok?
    ensures first.value == !old(Contains(service.Favorites(), user.id))
    ensures second.value == !first.value
    ensures Contains(service.Favorites(), user.id) == old(Contains(service.Favorites(), user.id))
  {
    ghost var before := service.Favorites();
    first := service.ToggleFavorite(user, now1, false);
    second := service.ToggleFavorite(user, now2, false);
    ToggleTwiceRestoresMembership(before, user, now1, now2);
  }
}
