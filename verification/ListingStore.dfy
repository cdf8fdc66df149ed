/** The stored rows themselves: the transactions of check-listing.ts and routers/listings.ts. */
module ListingStore {
  import opened Prelude
  import opened Listings
  import opened CheckProtocol

  class Store {
    var row: Row
    var pricePoints: seq<PricePoint>
    var checkRuns: seq<CheckRun>
    ghost var protocol: State   // the run of CheckProtocol this store has taken part in

    ghost predicate Valid()
      reads this
    {
      protocol.row == row && protocol.pricePoints == pricePoints && protocol.checkRuns == checkRuns
    }

    constructor (listing: Listing, updatedAtMicros: nat)
      ensures Valid() && protocol == Init(listing, updatedAtMicros)
    {
      row := Row(listing.(etag := None, lastModified := None), updatedAtMicros);
      pricePoints, checkRuns := [], [];
      protocol := Init(listing, updatedAtMicros);
    }

    /** `loadCheckable`: None for a listing that is switched off. */
    method LoadCheckable(ghost check: nat) returns (snapshot: Option<Snapshot>)
      requires Valid() && check !in protocol.checks
      modifies this`protocol
      ensures Valid() && protocol == Next(old(protocol), Load(check))
      ensures snapshot.Some? <==> check in protocol.checks
      ensures snapshot.Some? ==> protocol.checks[check] == InFlight(snapshot.value, old(protocol.at))
    {
      snapshot := if row.listing.active then Some(Loaded(row)) else None;
      protocol := Next(protocol, Load(check));
    }

    /** `persist`, on the write that `runCheck` computes from its snapshot. */
    method Persist(ghost check: nat, snapshot: Snapshot, reply: Reply, scheduledFor: nat, now: nat)
      returns (persisted: bool)
      requires Valid() && Enabled(protocol, Commit(check, reply, scheduledFor, now))
      requires protocol.checks[check].snapshot == snapshot
      modifies this
      ensures Valid() && protocol == Next(old(protocol), Commit(check, reply, scheduledFor, now))
      ensures persisted <==> protocol.checks[check].Persisted?
      ensures !persisted ==> row == old(row) && pricePoints == old(pricePoints)
    {
      var (outcome, write) := Outcomes(snapshot, reply);
      var checkRun := CheckRun(outcome.status, outcome.extractorUsed, outcome.httpStatus);
      persisted := row.updatedAtMicros / 1000 == snapshot.updatedAtMs;
      if persisted {
        row := Stamp(Claimed(row.listing, write, scheduledFor), now);
        if write.pricePoint.Some? {
          pricePoints := pricePoints + [write.pricePoint.value];
        }
      }
      checkRuns := checkRuns + [checkRun];
      protocol := Next(protocol, Commit(check, reply, scheduledFor, now));
    }

    /** `listings.update`, from the settings the router loaded earlier. */
    method Update(ghost edit: nat, loaded: Settings, input: UpdateInput, pulledIn: Option<nat>, now: nat)
      requires Valid() && edit in protocol.edits && protocol.edits[edit] == loaded
      modifies this`row, this`protocol
      ensures Valid() && protocol == Next(old(protocol), EditWrite(edit, input, pulledIn, now))
    {
      var patch := BuildListingUpdatePatch(loaded, input, now, pulledIn);
      if !EmptyPatch(patch) {
        row := Stamp(ApplyPatch(row.listing, patch), now);
      }
      protocol := Next(protocol, EditWrite(edit, input, pulledIn, now));
    }
  }
}
