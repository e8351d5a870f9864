/** The table of client (management) protocol types (`ClientProtocolType`):
    eight entries in declaration order, each pairing a command key with a
    message class, and the two first-match lookups over it. The key strings
    are configuration constants kept abstract in `KeyTable`. */
module ClientProtocol {
  import opened Wrappers

  datatype ClientProtocolType =
    | AuthRequest
    | AuthResponse
    | ListPeersRequest
    | ListPeersResponse
    | ConnectPeerRequest
    | ConnectPeerResponse
    | DisconnectPeerRequest
    | DisconnectPeerResponse

  /** The run-time class of a client message: one of the eight classes the
      table names, or some other class. */
  datatype ClientClass =
    | AuthRequestClass
    | AuthResponseClass
    | ListPeersRequestClass
    | ListPeersResponseClass
    | ConnectPeerRequestClass
    | ConnectPeerResponseClass
    | DisconnectPeerRequestClass
    | DisconnectPeerResponseClass
    | OtherClass(name: string)

  /** The command keys, one per entry. */
  datatype KeyTable = KeyTable(
    authRequest: string,
    authResponse: string,
    listPeersRequest: string,
    listPeersResponse: string,
    connectPeerRequest: string,
    connectPeerResponse: string,
    disconnectPeerRequest: string,
    disconnectPeerResponse: string)

  /** `values()`: the entries in declaration order. */
  const Values: seq<ClientProtocolType> := [
    AuthRequest, AuthResponse, ListPeersRequest, ListPeersResponse,
    ConnectPeerRequest, ConnectPeerResponse, DisconnectPeerRequest, DisconnectPeerResponse]

  /** The position of an entry in declaration order. */
  function Ordinal(t: ClientProtocolType): (i: nat)
    ensures i < |Values| && Values[i] == t
  {
    match t
    case AuthRequest => 0
    case AuthResponse => 1
    case ListPeersRequest => 2
    case ListPeersResponse => 3
    case ConnectPeerRequest => 4
    case ConnectPeerResponse => 5
    case DisconnectPeerRequest => 6
    case DisconnectPeerResponse => 7
  }

  /** The keys in declaration order. */
  function DeclaredKeys(keys: KeyTable): seq<string> {
    [keys.authRequest, keys.authResponse, keys.listPeersRequest, keys.listPeersResponse,
     keys.connectPeerRequest, keys.connectPeerResponse, keys.disconnectPeerRequest, keys.disconnectPeerResponse]
  }

  /** The message classes in declaration order. */
  const DeclaredClasses: seq<ClientClass> := [
    AuthRequestClass, AuthResponseClass, ListPeersRequestClass, ListPeersResponseClass,
    ConnectPeerRequestClass, ConnectPeerResponseClass, DisconnectPeerRequestClass, DisconnectPeerResponseClass]

  /** `getKey`: the key the entry was declared with. */
  function GetKey(keys: KeyTable, t: ClientProtocolType): (k: string)
    ensures k == DeclaredKeys(keys)[Ordinal(t)]
  {
    match t
    case AuthRequest => keys.authRequest
    case AuthResponse => keys.authResponse
    case ListPeersRequest => keys.listPeersRequest
    case ListPeersResponse => keys.listPeersResponse
    case ConnectPeerRequest => keys.connectPeerRequest
    case ConnectPeerResponse => keys.connectPeerResponse
    case DisconnectPeerRequest => keys.disconnectPeerRequest
    case DisconnectPeerResponse => keys.disconnectPeerResponse
  }

  /** `getValue`: the class the entry was declared with. */
  function GetValue(t: ClientProtocolType): (c: ClientClass)
    ensures !c.OtherClass?
    ensures c == DeclaredClasses[Ordinal(t)]
  {
    match t
    case AuthRequest => AuthRequestClass
    case AuthResponse => AuthResponseClass
    case ListPeersRequest => ListPeersRequestClass
    case ListPeersResponse => ListPeersResponseClass
    case ConnectPeerRequest => ConnectPeerRequestClass
    case ConnectPeerResponse => ConnectPeerResponseClass
    case DisconnectPeerRequest => DisconnectPeerRequestClass
    case DisconnectPeerResponse => DisconnectPeerResponseClass
  }

  /** The table has eight distinct entries, and the i-th entry in
      declaration order carries the i-th declared key and class. */
  lemma TableShape(keys: KeyTable)
    ensures |Values| == |DeclaredKeys(keys)| == |DeclaredClasses| == 8
    ensures forall i, j :: 0 <= i < j < |Values| ==> Values[i] != Values[j]
    ensures forall i :: 0 <= i < |Values| ==>
      GetKey(keys, Values[i]) == DeclaredKeys(keys)[i] && GetValue(Values[i]) == DeclaredClasses[i]
  {
    forall i | 0 <= i < |Values|
      ensures GetKey(keys, Values[i]) == DeclaredKeys(keys)[i] && GetValue(Values[i]) == DeclaredClasses[i]
    {
      assert Ordinal(Values[i]) == i;
    }
  }

  /** No two entries share a class. */
  lemma GetValueInjective(u: ClientProtocolType, v: ClientProtocolType)
    ensures GetValue(u) == GetValue(v) ==> u == v
  {
  }

  /** The declaration position of the entry at position `i`. */
  lemma OrdinalOfValue(i: nat)
    requires i < |Values|
    ensures Ordinal(Values[i]) == i
  {
  }

  /** The index of the first occurrence of `x` in `s`, if any. */
  function IndexOf<T(==)>(s: seq<T>, x: T): (r: Option<nat>)
    ensures r.None? <==> x !in s
    ensures r.Some? ==> r.value < |s| && s[r.value] == x
    ensures r.Some? ==> forall i :: 0 <= i < r.value ==> s[i] != x
  {
    if s == [] then None
    else if s[0] == x then Some(0)
    else
      match IndexOf(s[1..], x)
      case None => None
      case Some(i) => Some(i + 1)
  }

  /** `typeOfCommand`: the first entry, in declaration order, whose key is
      `command`, or the error "Unknown command: " followed by `command`. */
  function TypeOfCommand(keys: KeyTable, command: string): (r: Result<ClientProtocolType, string>)
    ensures r.Failure? <==> forall t :: GetKey(keys, t) != command
    ensures r.Failure? ==> r.error == "Unknown command: " + command
    ensures r.Success? ==> GetKey(keys, r.value) == command
    ensures r.Success? ==> forall t :: Ordinal(t) < Ordinal(r.value) ==> GetKey(keys, t) != command
  {
    match IndexOf(DeclaredKeys(keys), command)
    case Some(i) =>
      OrdinalOfValue(i);
      assert GetKey(keys, Values[i]) == command;
      Success(Values[i])
    case None =>
      Failure("Unknown command: " + command)
  }

  /** `typeOfProtocol`: the entry declared with the message's class; a class
      the table does not name fails ("shouldn't happen" in the source). */
  function TypeOfProtocol(c: ClientClass): (r: Result<ClientProtocolType, string>)
    ensures r.Success? <==> exists t :: GetValue(t) == c
    ensures r.Success? ==> GetValue(r.value) == c
    ensures r.Failure? ==> r.error == "Unknown protocol class"
  {
    match IndexOf(DeclaredClasses, c)
    case Some(i) =>
      OrdinalOfValue(i);
      assert GetValue(Values[i]) == c;
      Success(Values[i])
    case None =>
      Failure("Unknown protocol class")
  }

  /** Looking up any entry's key finds an entry with that key, and finds
      the entry itself when no two entries share a key. */
  lemma CommandRoundTrip(keys: KeyTable, t: ClientProtocolType)
    ensures TypeOfCommand(keys, GetKey(keys, t)).Success?
    ensures GetKey(keys, TypeOfCommand(keys, GetKey(keys, t)).value) == GetKey(keys, t)
    ensures (forall u, v :: u != v ==> GetKey(keys, u) != GetKey(keys, v)) ==>
      TypeOfCommand(keys, GetKey(keys, t)) == Success(t)
  {
  }

  /** A class outside the table is not found. */
  lemma UnknownClassFails(name: string)
    ensures TypeOfProtocol(OtherClass(name)) == Failure("Unknown protocol class")
  {
  }

  /** Every entry's class maps back to that entry. */
  lemma ProtocolRoundTrip(t: ClientProtocolType)
    ensures TypeOfProtocol(GetValue(t)) == Success(t)
  {
    var r := TypeOfProtocol(GetValue(t));
    assert r.Success?;
    GetValueInjective(r.value, t);
  }
}
