/** Stables: the resource campaigns refer to by id. The repository is a
    keyed store with auto-increment ids; the service creates stables with
    owner-scoped uniqueness and defaults, and reads them owner-scoped. */
module Stables {
  import opened Common
  import opened Text

  const DefaultLocation := "Peru"
  const Operative := "OPERATIVE"

  /** A stored stable. The service's response is a field-by-field copy of it,
      so the model returns the stable itself. */
  datatype Stable = Stable(
    id: int, name: string, description: Option<string>, ownerUsername: string,
    location: string, capacity: int, status: string, createdAt: int, updatedAt: int)

  /** The creation request; location and status may be absent. Capacity is
      checked positive before the service runs. */
  datatype CreateStableRequest = CreateStableRequest(
    name: string, description: Option<string>, location: Option<string>,
    capacity: int, status: Option<string>)

  /** An absent or blank location becomes "Peru"; any other is kept verbatim.
      Either way the stored location is never blank. */
  function LocationOrDefault(location: Option<string>): (r: string)
    ensures location.Some? && !IsBlank(location.value) ==> r == location.value
    ensures location.None? || IsBlank(location.value) ==> r == DefaultLocation
    ensures !IsBlank(r)
  {
    if location.None? || IsBlank(location.value) then
      assert DefaultLocation[0] == 'P';
      DefaultLocation
    else location.value
  }

  /** Applying the default to an already defaulted location changes nothing. */
  lemma LocationOrDefaultIdempotent(location: Option<string>)
    ensures LocationOrDefault(Some(LocationOrDefault(location))) == LocationOrDefault(location)
  {
  }

  /** An absent status becomes OPERATIVE; a given one is kept. */
  function StatusOrDefault(status: Option<string>): (r: string)
    ensures status.Some? ==> r == status.value
    ensures status.None? ==> r == Operative
  {
    if status.None? then Operative else status.value
  }

  class StableRepository {
    var rows: map<int, Stable>
    var nextId: nat

    /** Every row sits under its own id, below the next id to hand out;
        (owner, name) is unique; no stored location is blank. */
    ghost predicate Valid()
      reads this
    {
      && (forall k :: k in rows ==> rows[k].id == k && k < nextId)
      && (forall k, l :: k in rows && l in rows && k != l ==>
            rows[k].ownerUsername != rows[l].ownerUsername || rows[k].name != rows[l].name)
      && (forall k :: k in rows ==> !IsBlank(rows[k].location))
    }

    constructor ()
      ensures Valid() && rows == map[] && nextId == 1
    {
      rows := map[];
      nextId := 1;
    }

    /** findByNameAndOwnerUsername(...).isPresent() */
    predicate NameTaken(name: string, owner: string)
      reads this
    {
      exists k :: k in rows && rows[k].name == name && rows[k].ownerUsername == owner
    }

    /** In a valid store a taken (name, owner) pair belongs to exactly one
        stable, so the lookup's optional result is well defined. */
    lemma NameTakenByOne(name: string, owner: string)
      requires Valid() && NameTaken(name, owner)
      ensures exists k :: (k in rows && rows[k].name == name && rows[k].ownerUsername == owner
        && forall l :: l in rows && l != k ==> rows[l].name != name || rows[l].ownerUsername != owner)
    {
      var k :| k in rows && rows[k].name == name && rows[k].ownerUsername == owner;
      assert forall l :: l in rows && l != k ==> rows[l].name != name || rows[l].ownerUsername != owner;
    }
  }

  class StableService {
    const stableRepository: StableRepository

    constructor (stableRepository: StableRepository)
      ensures this.stableRepository == stableRepository
    {
      this.stableRepository := stableRepository;
    }

    /** Rejects a name the caller already uses, saving nothing; otherwise stores
        a stable owned by the caller under the next id, with the request's name,
        description and capacity and the defaulted location and status. */
    method CreateStable(request: CreateStableRequest, username: string, now: int)
      returns (r: Result<Stable>)
      requires stableRepository.Valid()
      modifies stableRepository
      ensures stableRepository.Valid()
      ensures old(stableRepository.NameTaken(request.name, username)) ==>
        r == Failure(DuplicateResource)
        && stableRepository.rows == old(stableRepository.rows)
        && stableRepository.nextId == old(stableRepository.nextId)
      ensures !old(stableRepository.NameTaken(request.name, username)) ==>
        var s := Stable(old(stableRepository.nextId), request.name, request.description, username,
                        LocationOrDefault(request.location), request.capacity,
                        StatusOrDefault(request.status), now, now);
        r == Success(s)
        && stableRepository.rows == old(stableRepository.rows)[s.id := s]
        && stableRepository.nextId == old(stableRepository.nextId) + 1
    {
      if stableRepository.NameTaken(request.name, username) {
        return Failure(DuplicateResource);
      }
      var id := stableRepository.nextId;
      var s := Stable(id, request.name, request.description, username,
                      LocationOrDefault(request.location), request.capacity,
                      StatusOrDefault(request.status), now, now);
      stableRepository.rows := stableRepository.rows[id := s];
      stableRepository.nextId := id + 1;
      r := Success(s);
    }

    /** Every stable for an admin, only the caller's own otherwise. */
    method GetAllStables(username: string, isAdmin: bool) returns (r: map<int, Stable>)
      ensures isAdmin ==> r == stableRepository.rows
      ensures !isAdmin ==> forall k :: k in r <==>
        k in stableRepository.rows && stableRepository.rows[k].ownerUsername == username
      ensures forall k :: k in r ==> k in stableRepository.rows && r[k] == stableRepository.rows[k]
      ensures forall k :: k in stableRepository.rows ==>
        (k in r <==> Allowed(username, isAdmin, stableRepository.rows[k].ownerUsername))
    {
      var rows := stableRepository.rows;
      if isAdmin {
        r := rows;
      } else {
        r := map k | k in rows && rows[k].ownerUsername == username :: rows[k];
      }
    }

    /** NotFound for a missing id; Security exactly when the caller is neither
        admin nor owner; the stored stable otherwise. */
    method GetStableById(stableId: int, username: string, isAdmin: bool) returns (r: Result<Stable>)
      ensures stableId !in stableRepository.rows ==> r == Failure(NotFound)
      ensures stableId in stableRepository.rows ==>
        var s := stableRepository.rows[stableId];
        r == if Allowed(username, isAdmin, s.ownerUsername) then Success(s) else Failure(Security)
    {
      if stableId !in stableRepository.rows {
        return Failure(NotFound);
      }
      var stable := stableRepository.rows[stableId];
      if !isAdmin && stable.ownerUsername != username {
        return Failure(Security);
      }
      r := Success(stable);
    }
  }
}
