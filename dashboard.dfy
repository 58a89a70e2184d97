/**
 * The driver's dashboard (mototaxista-dashboard.js): the signed-in driver, the sample rides
 * offered to them, and the life cycle of a ride from offered to accepted, started and finished.
 */
module DriverDashboard {

  import opened Wrappers
  import opened Lists
  import opened Store

  /** The `status` field that the handlers write into the shared ride objects. */
  datatype RideStatus = Available | Accepted | InProgress

  /** One element of `mockRides`, without its mutable status; the rating is in tenths. */
  datatype Ride = Ride(
    id: int,
    passenger: string,
    phone: string,
    pickup: string,
    destination: string,
    distance: string,
    estimatedTime: string,
    price: string,
    ratingTenths: int)

  /** `mockRides`, in the order the source lists them; every ride starts out 'available'. */
  const MockRides: seq<Ride> := [
    Ride(1, "Jo\U{E3}o Silva", "(11) 99999-9999", "Rua das Flores, 123", "Shopping Center",
      "5.2 km", "15 min", "R$ 18,50", 48),
    Ride(2, "Maria Santos", "(11) 88888-8888", "Av. Paulista, 1000", "Aeroporto",
      "12.5 km", "25 min", "R$ 35,00", 49),
    Ride(3, "Pedro Costa", "(11) 77777-7777", "Rua da Consola\U{E7}\U{E3}o, 500", "Esta\U{E7}\U{E3}o de Metr\U{F4}",
      "3.8 km", "12 min", "R$ 15,00", 47),
    Ride(4, "Ana Oliveira", "(11) 66666-6666", "Rua Augusta, 200", "Hospital",
      "8.1 km", "20 min", "R$ 25,00", 46)
  ]

  /** The ids of the sample rides, in list order, and as a set. */
  const RideIds: seq<int> := [1, 2, 3, 4]
  const MockIds: set<int> := {1, 2, 3, 4}

  /** `ride.status` of every sample ride when the page loads. */
  const InitialStatus: map<int, RideStatus> := map[1 := Available, 2 := Available, 3 := Available, 4 := Available]

  /** The ids of a list of rides, in order. */
  function IdsOf(rides: seq<Ride>): (r: seq<int>)
    ensures |r| == |rides|
    ensures forall i :: 0 <= i < |r| ==> r[i] == rides[i].id
  {
    if rides == [] then [] else [rides[0].id] + IdsOf(rides[1..])
  }

  /** `mockRides.filter(ride => ride.status === 'available')`, on ride ids. */
  function AvailableFrom(ids: seq<int>, status: map<int, RideStatus>): (r: seq<int>)
    ensures forall x :: x in r <==> x in ids && x in status && status[x] == Available
    ensures |r| <= |ids|
    ensures NoDuplicates(ids) ==> NoDuplicates(r)
  {
    if ids == [] then []
    else
      var rest := AvailableFrom(ids[1..], status);
      assert forall x :: x in ids <==> x == ids[0] || x in ids[1..];
      assert NoDuplicates(ids) ==> ids[0] !in ids[1..];
      if ids[0] in status && status[ids[0]] == Available then [ids[0]] + rest else rest
  }

  /** Filtering a concatenation of id lists filters each part, so the filter keeps the list order. */
  lemma {:induction false} AvailableFromAppend(a: seq<int>, b: seq<int>, status: map<int, RideStatus>)
    ensures AvailableFrom(a + b, status) == AvailableFrom(a, status) + AvailableFrom(b, status)
  {
    if a == [] {
      assert a + b == b;
    } else {
      assert (a + b)[0] == a[0] && (a + b)[1..] == a[1..] + b;
      AvailableFromAppend(a[1..], b, status);
    }
  }

  /** One id is kept exactly when its status is 'available'. */
  lemma AvailableFromSingleton(id: int, status: map<int, RideStatus>)
    ensures AvailableFrom([id], status) == if id in status && status[id] == Available then [id] else []
  {
    assert [id][1..] == [];
  }

  /** The sample rides carry the ids 1 to 4, in this order. */
  lemma MockIdsInOrder()
    ensures IdsOf(MockRides) == RideIds
  {
    assert IdsOf(MockRides[3..]) == [4];
    assert IdsOf(MockRides[2..]) == [3, 4];
    assert IdsOf(MockRides[1..]) == [2, 3, 4];
  }

  /** No two sample rides share an id. */
  lemma MockIdsDistinct()
    ensures NoDuplicates(RideIds)
  {
  }

  /** Each sample ride, and nothing else, has a status when the page loads. */
  lemma InitialStatusCoversRides()
    ensures InitialStatus.Keys == MockIds
  {
  }

  /** `checkUserLogin`: only a signed-in driver becomes the dashboard's user. */
  function CurrentUser(session: Option<Session>): (r: Option<Session>)
    ensures r.Some? <==> session.Some? && session.value.DriverSession?
    ensures r.Some? ==> r == session
  {
    match session
    case Some(DriverSession(_, _, _, _, _)) => session
    case _ => None
  }

  /** The figures `updateStatistics` shows; the rating is in tenths and the earnings in reais. */
  datatype Statistics = Statistics(totalRides: int, ratingTenths: int, earnings: int)

  /** The rating shown when the user's own is absent or zero (`|| 4.8`). */
  const FallbackRatingTenths := 48

  /** The simulated average earnings per ride, in reais. */
  const EarningsPerRide := 20

  /**
   * `updateStatistics`: nothing is shown without a user; absent or zero figures fall back to
   * 0 rides and a 4.8 rating, and the earnings are the rides times the average per ride.
   */
  function Stats(user: Option<Session>): (r: Option<Statistics>)
    ensures r.None? <==> user.None?
    ensures r.Some? ==> r.value.earnings == EarningsPerRide * r.value.totalRides
    ensures r.Some? ==> r.value.ratingTenths != 0
    ensures r.Some? && user.value.DriverSession? ==> r.value.totalRides == user.value.totalRides
    ensures r.Some? && user.value.DriverSession? && user.value.rating != 0 ==> r.value.ratingTenths == user.value.rating
    ensures r.Some? && user.value.DriverSession? && user.value.rating == 0 ==> r.value.ratingTenths == FallbackRatingTenths
    ensures r.Some? && user.value.PassengerSession? ==> r.value == Statistics(0, FallbackRatingTenths, 0)
  {
    match user
    case None => None
    case Some(DriverSession(_, _, _, rating, rides)) =>
      Some(Statistics(rides, if rating == 0 then FallbackRatingTenths else rating, rides * EarningsPerRide))
    case Some(PassengerSession(_, _)) => Some(Statistics(0, FallbackRatingTenths, 0))
  }

  /** The dashboard page's state: the module-level variables and the status fields of `mockRides`. */
  class Dashboard {
    var isOnline: bool
    var currentUser: Option<Session>
    var status: map<int, RideStatus>   // `status` of each element of `mockRides`, by id
    var available: seq<int>            // `availableRidesList`, as ride ids
    var accepted: seq<int>             // `acceptedRidesList`, as ride ids

    /**
     * Every sample ride has a status; a ride is listed at most once; an offered ride is
     * 'available' and an accepted one is not, so no ride is both offered and accepted.
     */
    predicate Valid()
      reads this
    {
      && status.Keys == MockIds
      && NoDuplicates(available)
      && NoDuplicates(accepted)
      && (forall i :: 0 <= i < |available| ==> available[i] in status && status[available[i]] == Available)
      && (forall i :: 0 <= i < |accepted| ==> accepted[i] in status && status[accepted[i]] != Available)
    }

    /** The page's initial state: online, no user yet, nothing listed, every sample ride 'available'. */
    constructor ()
      ensures Valid()
      ensures isOnline && currentUser == None
      ensures status == InitialStatus
      ensures available == [] && accepted == []
    {
      isOnline := true;
      currentUser := None;
      status := InitialStatus;
      available := [];
      accepted := [];
      new;
      InitialStatusCoversRides();
    }

    /** The `DOMContentLoaded` handler: `checkUserLogin`, then `loadAvailableRides`. */
    method PageLoaded(store: LocalStore)
      requires Valid()
      modifies this`currentUser, this`available
      ensures Valid()
      ensures currentUser == CurrentUser(store.session)
      ensures available == AvailableFrom(RideIds, status)
    {
      currentUser := CurrentUser(store.session);
      LoadAvailableRides();
    }

    /** `loadAvailableRides`: offer again, in list order, every sample ride whose status is 'available' (see MockIdsInOrder). */
    method LoadAvailableRides()
      requires status.Keys == MockIds
      requires NoDuplicates(accepted)
      requires forall i :: 0 <= i < |accepted| ==> accepted[i] in status && status[accepted[i]] != Available
      modifies this`available
      ensures Valid()
      ensures available == AvailableFrom(RideIds, status)
    {
      MockIdsDistinct();
      available := AvailableFrom(RideIds, status);
      forall i | 0 <= i < |available|
        ensures available[i] in status && status[available[i]] == Available
      {
        assert available[i] in available;
      }
    }

    /** `acceptRide`: an offered ride leaves the offers and joins the accepted rides. */
    method AcceptRide(id: int)
      requires Valid()
      modifies this`available, this`accepted, this`status
      ensures Valid()
      ensures id in old(available) ==>
        (available == Without(old(available), id) && accepted == old(accepted) + [id] && status == old(status)[id := Accepted])
      ensures id !in old(available) ==> available == old(available) && accepted == old(accepted) && status == old(status)
    {
      if id in available {
        assert id !in accepted;
        WithoutKeepsNoDuplicates(available, id);
        available := Without(available, id);
        accepted := accepted + [id];
        status := status[id := Accepted];
      }
    }

    /** `rejectRide`: an offered ride leaves the offers; its status stays 'available'. */
    method RejectRide(id: int)
      requires Valid()
      modifies this`available
      ensures Valid()
      ensures available == Without(old(available), id)
    {
      WithoutKeepsNoDuplicates(available, id);
      available := Without(available, id);
    }

    /** `startRide`: an accepted ride is marked in progress; it stays in the accepted list. */
    method StartRide(id: int)
      requires Valid()
      modifies this`status
      ensures Valid()
      ensures id in accepted ==> status == old(status)[id := InProgress]
      ensures id !in accepted ==> status == old(status)
    {
      if id in accepted {
        assert id !in available;
        status := status[id := InProgress];
      }
    }

    /**
     * `finishRide` (run by the timer `startRide` sets): the ride leaves the accepted list and
     * keeps its last status, so it is never offered again.
     */
    method FinishRide(id: int)
      requires Valid()
      modifies this`accepted
      ensures Valid()
      ensures accepted == Without(old(accepted), id)
    {
      WithoutKeepsNoDuplicates(accepted, id);
      accepted := Without(accepted, id);
    }

    /** `cancelRide`: an accepted ride goes back to the end of the offers as 'available'. */
    method CancelRide(id: int)
      requires Valid()
      modifies this`available, this`accepted, this`status
      ensures Valid()
      ensures id in old(accepted) ==>
        (accepted == Without(old(accepted), id) && available == old(available) + [id] && status == old(status)[id := Available])
      ensures id !in old(accepted) ==> available == old(available) && accepted == old(accepted) && status == old(status)
    {
      if id in accepted {
        assert id !in available;
        WithoutKeepsNoDuplicates(accepted, id);
        accepted := Without(accepted, id);
        available := available + [id];
        status := status[id := Available];
      }
    }

    /** `toggleStatus`: going online reloads the offers; going offline only hides them. */
    method ToggleStatus()
      requires Valid()
      modifies this`isOnline, this`available
      ensures Valid()
      ensures isOnline == !old(isOnline)
      ensures isOnline ==> available == AvailableFrom(RideIds, status)
      ensures !isOnline ==> available == old(available)
    {
      isOnline := !isOnline;
      if isOnline {
        LoadAvailableRides();
      }
    }
  }

  /** A ride whose status is no longer 'available' (accepted, started or finished) is never reloaded. */
  lemma ReloadSkipsTakenRides(status: map<int, RideStatus>, id: int)
    requires id in status && status[id] != Available
    ensures id !in AvailableFrom(RideIds, status)
  {
  }

  /** A rejected ride keeps its 'available' status, so going online again offers it once more. */
  lemma ReloadOffersRejectedRide(status: map<int, RideStatus>, id: int)
    requires id in MockIds && id in status && status[id] == Available
    ensures id in AvailableFrom(RideIds, status)
  {
  }

  /** When the page loads, every sample ride is offered. */
  lemma FreshPageOffersAll()
    ensures forall x :: x in AvailableFrom(RideIds, InitialStatus) <==> x in MockIds
  {
  }
}
