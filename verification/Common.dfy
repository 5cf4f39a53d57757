/** Failure-carrying results and optional values used by every component. */
module Common {

  datatype Option<+T> = None | Some(value: T)

  datatype Result<+T, +E> = Ok(value: T) | Err(error: E)
}

/** Ascending listings of sets of positions. */
module Positions {

  /** The places are the members of the set, in ascending order. */
  ghost predicate Lists(places: seq<nat>, chosen: set<nat>) {
    && (forall i, j :: 0 <= i < j < |places| ==> places[i] < places[j])
    && (forall i :: 0 <= i < |places| ==> places[i] in chosen)
    && forall k :: k in chosen ==> k in places
  }

  lemma ListsNone()
    ensures Lists([], {})
  {
  }

  lemma ListsSnoc(places: seq<nat>, chosen: set<nat>, n: nat)
    requires Lists(places, chosen) && forall k :: k in chosen ==> k < n
    ensures Lists(places + [n], chosen + {n})
  {
    var longer := places + [n];
    forall i, j | 0 <= i < j < |longer| ensures longer[i] < longer[j] {
      assert places[i] in chosen;
    }
    forall k | k in chosen + {n} ensures k in longer {
      assert longer[|places|] == n;
    }
  }
}

/** The envelope check shared by the contract validators. */
module Envelope {
  import Strings

  const SCHEMA_VERSION_V1 := "signalforge/v1"

  predicate EnvelopeOk(schemaVersion: string, objectId: string, runId: string) {
    schemaVersion == SCHEMA_VERSION_V1 && !Strings.Blank(objectId) && !Strings.Blank(runId)
  }
}

/** Instants in nanoseconds since the zero time, and Go's saturating time.Time.Sub. */
module Instants {

  type Time = int

  const ZERO_TIME: Time := 0
  const MIN_DURATION := -0x8000_0000_0000_0000
  const MAX_DURATION := 0x7FFF_FFFF_FFFF_FFFF

  function Since(later: Time, earlier: Time): (d: int)
    ensures MIN_DURATION <= d <= MAX_DURATION
    ensures MIN_DURATION <= later - earlier <= MAX_DURATION ==> d == later - earlier
  {
    var d := later - earlier;
    if d > MAX_DURATION then MAX_DURATION else if d < MIN_DURATION then MIN_DURATION else d
  }
}
