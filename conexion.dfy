/** DataBeacon/EstadoConexion.kt: the connection states of an attendance
    receiver and their names. */
module Conexion {
  datatype EstadoConexion = Connected | Disconnected | Uninitialized | CurrentlyInitializing

  /** `toString`. */
  function ToString(e: EstadoConexion): string {
    match e
    case Connected => "Connected"
    case Disconnected => "Disconnected"
    case Uninitialized => "Uninitialized"
    case CurrentlyInitializing => "CurrentlyInitializing"
  }

  /** `fromString`: an unknown name reads as `Uninitialized`. */
  function FromString(value: string): EstadoConexion {
    if value == "Connected" then Connected
    else if value == "Disconnected" then Disconnected
    else if value == "Uninitialized" then Uninitialized
    else if value == "CurrentlyInitializing" then CurrentlyInitializing
    else Uninitialized
  }

  predicate IsName(s: string) {
    s == "Connected" || s == "Disconnected" || s == "Uninitialized" || s == "CurrentlyInitializing"
  }

  /** Reading a state's name gives the state back. */
  lemma FromToString(e: EstadoConexion)
    ensures FromString(ToString(e)) == e
  {
  }

  /** Naming the state read from a name gives the name back exactly for the
      four names; any other string reads as `Uninitialized`. */
  lemma ToFromString(s: string)
    ensures IsName(s) <==> ToString(FromString(s)) == s
    ensures !IsName(s) ==> FromString(s) == Uninitialized
  {
  }

  /** The four states have distinct names. */
  lemma ToStringInjective(a: EstadoConexion, b: EstadoConexion)
    ensures ToString(a) == ToString(b) ==> a == b
  {
    FromToString(a);
    FromToString(b);
  }
}
