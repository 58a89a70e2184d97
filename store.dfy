/**
 * The browser's local storage as the screens use it: one JSON array per key, and the
 * record types stored under those keys.
 */
module Store {

  import opened Wrappers

  /**
   * What `localStorage.getItem(key)` yields for a key holding a JSON array:
   * nothing (null, or the empty string, which the screens' `if (stored)` treats alike),
   * text that does not parse to an array, or a parsed array.
   */
  datatype Entry<T> = Missing | Garbled | Stored(items: seq<T>)

  /**
   * `stored ? JSON.parse(stored) : []` (also `JSON.parse(getItem(key) || '[]')`):
   * a missing key reads as the empty list; unreadable text makes `JSON.parse` throw (None).
   */
  function ReadList<T>(e: Entry<T>): (r: Option<seq<T>>)
    ensures r.None? <==> e.Garbled?
    ensures e.Stored? ==> r == Some(e.items)
    ensures e.Missing? ==> r == Some([])
  {
    match e
    case Missing => Some([])
    case Garbled => None
    case Stored(items) => Some(items)
  }

  datatype RegistrationStatus = Pending | Approved | Rejected

  /** A driver's registration request (`registrationData` / `sampleData`). */
  datatype Registration = Registration(
    id: int,
    cnh: string,
    vehicleDocument: string,
    password: Option<string>,
    photoName: string,
    photoSize: int,
    registrationDate: string,
    status: RegistrationStatus,
    processedDate: Option<string>)

  function RegistrationId(g: Registration): int { g.id }

  function RegistrationCnh(g: Registration): string { g.cnh }

  /** A login credential of a driver (an element of 'mototaxistasAprovados'); rating in tenths. */
  datatype Driver = Driver(
    phone: string,
    password: string,
    name: string,
    cnh: string,
    status: string,
    rating: int,
    totalRides: int)

  function DriverPhone(d: Driver): string { d.phone }

  /** A passenger account (an element of 'passageirosRegistrados'). */
  datatype Passenger = Passenger(phone: string, password: string, name: string, active: bool)

  function PassengerPhone(u: Passenger): string { u.phone }

  /** The 'usuarioLogado' record: `tipo` is the constructor; rating in tenths. */
  datatype Session =
    | DriverSession(name: string, phone: string, cnh: string, rating: int, totalRides: int)
    | PassengerSession(name: string, phone: string)

  /** The keys of local storage that the modelled screens read and write. */
  class LocalStore {
    var pendingRegistrations: Entry<Registration>   // 'pendingMototaxistaRegistrations'
    var approvedRegistrations: Entry<Registration>  // 'approvedMototaxistaRegistrations'
    var rejectedRegistrations: Entry<Registration>  // 'rejectedMototaxistaRegistrations'
    var drivers: Entry<Driver>                      // 'mototaxistasAprovados'
    var passengers: Entry<Passenger>                // 'passageirosRegistrados'
    var session: Option<Session>                    // 'usuarioLogado'

    /** A fresh browser profile: no key is set. */
    constructor ()
      ensures pendingRegistrations == Missing && approvedRegistrations == Missing
      ensures rejectedRegistrations == Missing && drivers == Missing && passengers == Missing
      ensures session == None
    {
      pendingRegistrations, approvedRegistrations, rejectedRegistrations := Missing, Missing, Missing;
      drivers, passengers, session := Missing, Missing, None;
    }
  }
}
