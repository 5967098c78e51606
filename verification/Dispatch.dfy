/** Finding out which protocol a new connection speaks. */
module Dispatch {
  import opened Bytes
  import opened Streams
  import Fm1200
  import Intellitrac
  import Obdii2g
  import Wanway
  import WanwayInfo
  import WanwayPackets
  import WanwayWire

  datatype ProtocolType = INTELLITRAC_A | OBDII2G | GT06 | TR06 | FM1200

  datatype DeviceType = TELTONIKA | WANWAY | INTELLITRAC | CONCOX | AQUILA

  /** The order in which the handler tries the protocols. */
  const ALLOWED: seq<ProtocolType> := [INTELLITRAC_A, OBDII2G, GT06, TR06, FM1200]

  // ----- The order of attempts -----

  datatype Attempted = Chosen(protocol: ProtocolType, id: seq<char>, ack: seq<byte>, skip: nat) | Refused(error: Error)

  /** Tries one protocol after another on the same bytes; only an unknown protocol leads to the next. */
  function Attempt(allowed: seq<ProtocolType>, login: ProtocolType -> Login): Attempted {
    if allowed == [] then Refused(UnknownDeviceType) else
      match login(allowed[0])
      case LoggedIn(id, ack, skip) => Chosen(allowed[0], id, ack, skip)
      case LoginFailed(e) => if e.UnknownProtocol? then Attempt(allowed[1..], login) else Refused(e)
  }

  /** The first protocol that does not call the stream unknown decides, whatever the later ones would say. */
  lemma {:induction false} FirstMatchDecides(allowed: seq<ProtocolType>, login: ProtocolType -> Login, k: nat)
    requires k < |allowed| && login(allowed[k]) != LoginFailed(UnknownProtocol)
    requires forall j :: 0 <= j < k ==> login(allowed[j]) == LoginFailed(UnknownProtocol)
    ensures Attempt(allowed, login)
         == match login(allowed[k])
            case LoggedIn(id, ack, skip) => Chosen(allowed[k], id, ack, skip)
            case LoginFailed(e) => Refused(e)
  {
    if k > 0 {
      assert login(allowed[0]) == LoginFailed(UnknownProtocol);
      FirstMatchDecides(allowed[1..], login, k - 1);
    }
  }

  /** Protocol `k` logs the device in, and every protocol before it calls the stream unknown. */
  predicate Wins(allowed: seq<ProtocolType>, login: ProtocolType -> Login, k: nat, r: Attempted) {
    && r.Chosen? && k < |allowed| && allowed[k] == r.protocol && login(allowed[k]) == LoggedIn(r.id, r.ack, r.skip)
    && forall j :: 0 <= j < k ==> login(allowed[j]) == LoginFailed(UnknownProtocol)
  }

  lemma WinsLater(allowed: seq<ProtocolType>, login: ProtocolType -> Login, k: nat, r: Attempted)
    requires allowed != [] && login(allowed[0]) == LoginFailed(UnknownProtocol) && Wins(allowed[1..], login, k, r)
    ensures Wins(allowed, login, k + 1, r)
  {
    assert allowed[k + 1] == allowed[1..][k];
    assert forall j :: 0 < j < k + 1 ==> allowed[j] == allowed[1..][j - 1];
  }

  /** A protocol is chosen exactly if it wins. */
  lemma {:induction false} ChosenIff(allowed: seq<ProtocolType>, login: ProtocolType -> Login, r: Attempted)
    requires r.Chosen?
    ensures Attempt(allowed, login) == r <==> exists k :: Wins(allowed, login, k, r)
    decreases |allowed|
  {
    if allowed != [] && login(allowed[0]) == LoginFailed(UnknownProtocol) {
      ChosenIff(allowed[1..], login, r);
      if k :| Wins(allowed[1..], login, k, r) {
        WinsLater(allowed, login, k, r);
      }
    } else if Attempt(allowed, login) == r {
      assert Wins(allowed, login, 0, r);
    }
    forall k | Wins(allowed, login, k, r)
      ensures Attempt(allowed, login) == r
    {
      FirstMatchDecides(allowed, login, k);
    }
  }

  // ----- The logins -----

  function LoginOf(t: ProtocolType, s: Source, p: nat): Login {
    match t
    case INTELLITRAC_A => Intellitrac.LoginAt(s, p)
    case OBDII2G => Obdii2g.LoginAt(s, p)
    case GT06 => Wanway.LoginAt(Wanway.TheDevice(WanwayInfo.GT06, false), s, p)
    case TR06 => Wanway.LoginAt(Wanway.TheDevice(WanwayInfo.TR06, false), s, p)
    case FM1200 => Fm1200.LoginAt(s, p)
  }

  /** Where the stream of a chosen protocol begins, once the handler has discarded what it had to. */
  function StreamStart(t: ProtocolType, s: Source, p: nat): nat {
    match t
    case INTELLITRAC_A => p + Intellitrac.HeartbeatSize(Intellitrac.IsBinaryHeartbeat(s, p))
    case OBDII2G => p
    case GT06 => PacketEnd(WanwayInfo.GT06, s, p)
    case TR06 => PacketEnd(WanwayInfo.TR06, s, p)
    case FM1200 => p + 17
  }

  function PacketEnd(kind: WanwayInfo.Kind, s: Source, p: nat): nat {
    match WanwayPackets.PacketAt(Wanway.TheDevice(kind, false), s, p)
    case Ok(_, next) => next
    case Fail(_) => p
  }

  /** Logins as a function of the protocol; the loop below need not look inside one. */
  ghost predicate IsLogins(login: ProtocolType -> Login, s: Source, p: nat) {
    forall t {:trigger LoginOf(t, s, p)} :: login(t) == LoginOf(t, s, p)
  }

  /** A device that logs in has an id, so the handler's check for an empty one never fails. */
  lemma IdNotEmpty(t: ProtocolType, s: Source, p: nat)
    requires Wanway.Honest(s)
    ensures LoginOf(t, s, p).LoggedIn? ==> |LoginOf(t, s, p).id| >= 15
  {
    Wanway.TheDeviceIsDevice(WanwayInfo.GT06, false);
    Wanway.TheDeviceIsDevice(WanwayInfo.TR06, false);
    Wanway.LoginErrors(Wanway.TheDevice(WanwayInfo.GT06, false), WanwayInfo.GT06, s, p);
    Wanway.LoginErrors(Wanway.TheDevice(WanwayInfo.TR06, false), WanwayInfo.TR06, s, p);
  }

  /** GT06 and TR06 look at the same header, and with it GT06 never calls the stream unknown. */
  lemma GT06Settles(s: Source, p: nat)
    requires Wanway.Honest(s)
    ensures LoginOf(GT06, s, p) == LoginFailed(UnknownProtocol) ==> LoginOf(TR06, s, p) == LoginFailed(UnknownProtocol)
  {
    Wanway.TheDeviceIsDevice(WanwayInfo.GT06, false);
    Wanway.LoginErrors(Wanway.TheDevice(WanwayInfo.GT06, false), WanwayInfo.GT06, s, p);
  }

  /** TR06 never wins: whatever starts like one of its packets is settled by GT06, which comes first. */
  lemma TR06NeverChosen(login: ProtocolType -> Login, s: Source, p: nat)
    requires IsLogins(login, s, p) && Wanway.Honest(s)
    ensures Attempt(ALLOWED, login).Chosen? ==> Attempt(ALLOWED, login).protocol != TR06
  {
    GT06Settles(s, p);
    assert login(GT06) == LoginOf(GT06, s, p) && login(TR06) == LoginOf(TR06, s, p);
    assert ALLOWED[2] == GT06;
    var r := Attempt(ALLOWED, login);
    if r.Chosen? {
      ChosenIff(ALLOWED, login, r);
      var k :| Wins(ALLOWED, login, k, r);
      assert k == 3 ==> login(ALLOWED[2]) == LoginFailed(UnknownProtocol);
    }
  }

  // ----- Which protocol a stream speaks -----

  /** Who takes a stream, by its first four bytes alone. */
  function Speaker(s: Source, p: nat): Option<ProtocolType>
    requires p + 4 <= |s.data|
  {
    var a, b, c, d := s.data[p], s.data[p + 1], s.data[p + 2], s.data[p + 3];
    if (c == 0x00 && d == 0x02) || (a == 0xFA && b == 0xF8) then Some(INTELLITRAC_A)
    else if a == 0x24 && b == 0x24 then Some(OBDII2G)
    else if (a == 0x78 && b == 0x78) || (a == 0x79 && b == 0x79) then Some(GT06)
    else if a == 0x00 && b == 0x0F then Some(FM1200)
    else None
  }

  lemma TwoBytes(s: Source, p: nat)
    requires p + 2 <= |s.data|
    ensures FromBE(s.data[p..p + 2]) == 256 * s.data[p] as nat + s.data[p + 1] as nat
  {
    var b := s.data[p..p + 2];
    assert b[..1] == [s.data[p]] && FromBE([s.data[p]]) == s.data[p];
  }

  /** Each protocol calls a stream unknown exactly if its own header is missing. */
  lemma UnknownIff(s: Source, p: nat)
    requires Wanway.Honest(s) && p + 4 <= |s.data|
    ensures var (a, b, c, d) := (s.data[p], s.data[p + 1], s.data[p + 2], s.data[p + 3]);
      && (LoginOf(INTELLITRAC_A, s, p) != LoginFailed(UnknownProtocol) <==> (c == 0x00 && d == 0x02) || (a == 0xFA && b == 0xF8))
      && (LoginOf(OBDII2G, s, p) != LoginFailed(UnknownProtocol) <==> a == 0x24 && b == 0x24)
      && (LoginOf(GT06, s, p) != LoginFailed(UnknownProtocol) <==> (a == 0x78 && b == 0x78) || (a == 0x79 && b == 0x79))
      && (LoginOf(TR06, s, p) != LoginFailed(UnknownProtocol) <==> (a == 0x78 && b == 0x78) || (a == 0x79 && b == 0x79))
      && (LoginOf(FM1200, s, p) != LoginFailed(UnknownProtocol) <==> a == 0x00 && b == 0x0F)
  {
    var two := s.data[p..p + 2];
    assert two == [s.data[p], s.data[p + 1]];
    TwoBytes(s, p);
    Wanway.TheDeviceIsDevice(WanwayInfo.GT06, false);
    Wanway.LoginErrors(Wanway.TheDevice(WanwayInfo.GT06, false), WanwayInfo.GT06, s, p);
    Wanway.TheDeviceIsDevice(WanwayInfo.TR06, false);
    Wanway.LoginErrors(Wanway.TheDevice(WanwayInfo.TR06, false), WanwayInfo.TR06, s, p);
  }

  function Outcome(t: ProtocolType, r: Login): Attempted {
    match r
    case LoggedIn(id, ack, skip) => Chosen(t, id, ack, skip)
    case LoginFailed(e) => Refused(e)
  }

  /** The first four bytes decide who takes the stream, and then only that protocol's login counts. */
  lemma HeaderDecides(login: ProtocolType -> Login, s: Source, p: nat)
    requires IsLogins(login, s, p) && Wanway.Honest(s) && p + 4 <= |s.data|
    ensures Attempt(ALLOWED, login)
         == match Speaker(s, p)
            case Some(t) => Outcome(t, login(t))
            case None => Refused(UnknownDeviceType)
  {
    UnknownIff(s, p);
    GT06Settles(s, p);
    assert login(INTELLITRAC_A) == LoginOf(INTELLITRAC_A, s, p) && login(OBDII2G) == LoginOf(OBDII2G, s, p);
    assert login(GT06) == LoginOf(GT06, s, p) && login(TR06) == LoginOf(TR06, s, p) && login(FM1200) == LoginOf(FM1200, s, p);
    AttemptFive(login);
  }

  /** The five attempts written out. */
  lemma AttemptFive(login: ProtocolType -> Login)
    ensures Attempt(ALLOWED, login)
         == if login(INTELLITRAC_A) != LoginFailed(UnknownProtocol) then Outcome(INTELLITRAC_A, login(INTELLITRAC_A))
            else if login(OBDII2G) != LoginFailed(UnknownProtocol) then Outcome(OBDII2G, login(OBDII2G))
            else if login(GT06) != LoginFailed(UnknownProtocol) then Outcome(GT06, login(GT06))
            else if login(TR06) != LoginFailed(UnknownProtocol) then Outcome(TR06, login(TR06))
            else if login(FM1200) != LoginFailed(UnknownProtocol) then Outcome(FM1200, login(FM1200))
            else Refused(UnknownDeviceType)
  {}

  // ----- Verification -----

  /** Where a device's right to connect is decided: nowhere, or by a remote answer. */
  datatype Authority = Local | Remote(answer: Result<(seq<char>, DeviceType)>)

  /** The type a protocol object reports; GT06 and TR06 report each other's. */
  function Reported(t: ProtocolType): ProtocolType {
    match t
    case GT06 => TR06
    case TR06 => GT06
    case _ => t
  }

  function DeviceTypes(t: ProtocolType): (types: seq<DeviceType>)
    ensures |types| >= 1
  {
    match t
    case FM1200 => [TELTONIKA]
    case INTELLITRAC_A => [INTELLITRAC]
    case OBDII2G => [AQUILA]
    case GT06 => [CONCOX, WANWAY]
    case TR06 => [WANWAY, CONCOX]
  }

  function VerifyDevice(authority: Authority, id: seq<char>, reported: ProtocolType): Result<DeviceType> {
    match authority
    case Local => Success(DeviceTypes(reported)[0])
    case Remote(Failure(e)) => Failure(e)
    case Remote(Success((imei, deviceType))) =>
      if imei != id || deviceType !in DeviceTypes(reported) then Failure(UnauthorizedDevice) else Success(deviceType)
  }

  /** A verified device is one of its own protocol's, although GT06 and TR06 report each other. */
  lemma VerifiedType(authority: Authority, id: seq<char>, t: ProtocolType)
    ensures VerifyDevice(authority, id, Reported(t)).Success? ==>
      VerifyDevice(authority, id, Reported(t)).value in DeviceTypes(t)
    ensures authority.Remote? && VerifyDevice(authority, id, Reported(t)).Success? ==>
      authority.answer == Success((id, VerifyDevice(authority, id, Reported(t)).value))
  {}

  /** The types of device that may speak a protocol. */
  function MaySpeak(t: ProtocolType): set<DeviceType> {
    match t
    case FM1200 => {TELTONIKA}
    case INTELLITRAC_A => {INTELLITRAC}
    case OBDII2G => {AQUILA}
    case GT06 => {WANWAY, CONCOX}
    case TR06 => {WANWAY, CONCOX}
  }

  /**
   A remote answer admits a device exactly if it names the device's own id and a type that may speak
   its protocol; a remote error is passed on, and any other answer leaves the device unauthorised.
   */
  lemma RemoteIff(answer: Result<(seq<char>, DeviceType)>, id: seq<char>, t: ProtocolType, d: DeviceType)
    ensures VerifyDevice(Remote(answer), id, Reported(t)) == Success(d) <==> answer == Success((id, d)) && d in MaySpeak(t)
    ensures VerifyDevice(Remote(answer), id, Reported(t)).Failure? ==>
      VerifyDevice(Remote(answer), id, Reported(t)) == Failure(if answer.Failure? then answer.error else UnauthorizedDevice)
  {}

  /** The local answer: GT06 and TR06 devices get the type that the other would, every other its own. */
  lemma LocalAnswer(id: seq<char>, t: ProtocolType)
    ensures VerifyDevice(Local, id, Reported(t))
         == Success(match t
                    case FM1200 => TELTONIKA
                    case INTELLITRAC_A => INTELLITRAC
                    case OBDII2G => AQUILA
                    case GT06 => WANWAY
                    case TR06 => CONCOX)
    ensures VerifyDevice(Local, id, Reported(t)) == Success(DeviceTypes(t)[0]) <==> t !in {GT06, TR06}
  {}

  // ----- Where the stream begins -----

  /** Behind the 22 or 8 bytes of a heartbeat, behind the 17 bytes of an id, or where the login was peeked. */
  lemma StartAfterLogin(t: ProtocolType, s: Source, p: nat)
    requires LoginOf(t, s, p).LoggedIn? && t in {INTELLITRAC_A, OBDII2G, FM1200}
    ensures StreamStart(t, s, p) <= |s.data|
    ensures StreamStart(t, s, p)
         == if t.FM1200? then p + 17
            else if t.OBDII2G? then p
            else if s.data[p + 2] == 0x00 && s.data[p + 3] == 0x02 then p + 22 else p + 8
  {}

  /** Behind the login packet, whatever its form. */
  lemma StartAfterPacket(kind: WanwayInfo.Kind, s: Source, p: nat) returns (w: WanwayPackets.Written)
    requires LoginOf(if kind.GT06? then GT06 else TR06, s, p).LoggedIn?
    ensures WanwayWire.LoginPacket(kind, s, p, w)
    ensures StreamStart(if kind.GT06? then GT06 else TR06, s, p) == p + |WanwayWire.PacketBytes(kind, w)|
  {
    var device := Wanway.TheDevice(kind, false);
    Wanway.TheDeviceIsDevice(kind, false);
    w := WanwayWire.LoginOnly(device, s, p);
    WanwayWire.PacketTaken(device, false, s, p, w);
  }

  // ----- The handler's loop -----

  /** A logged-in connection: its protocol and id, the ack it is owed, and its device type. */
  datatype Identified = Identified(protocol: ProtocolType, id: seq<char>, ack: seq<byte>, deviceType: DeviceType)

  /** A login on this stream ended with `r` and left the reader at `pos`. */
  ghost predicate Tried(t: ProtocolType, s: Source, p: nat, r: Login, pos: nat) {
    && r == LoginOf(t, s, p)
    && (r == LoginFailed(UnknownProtocol) ==> pos == p)
    && (r.LoggedIn? ==> pos + r.skip == StreamStart(t, s, p) <= |s.data|)
  }

  method TryWanway(kind: WanwayInfo.Kind, reader: Reader) returns (r: Login)
    requires reader.Valid() && Wanway.Honest(reader.source)
    modifies reader
    ensures reader.Valid()
    ensures Tried(if kind.GT06? then GT06 else TR06, reader.source, old(reader.pos), r, reader.pos)
  {
    var protocol := new Wanway.WanwayProtocol(kind);
    ghost var device := Wanway.TheDevice(kind, false);
    Wanway.TheDeviceIsDevice(kind, false);
    Wanway.TheMessages(device, reader.source);
    r := protocol.Login(reader, device, Wanway.MessagesOf(device, reader.source));
  }

  method TryLogin(t: ProtocolType, reader: Reader) returns (r: Login)
    requires reader.Valid() && Wanway.Honest(reader.source)
    modifies reader
    ensures reader.Valid()
    ensures Tried(t, reader.source, old(reader.pos), r, reader.pos)
  {
    match t
    case INTELLITRAC_A =>
      var protocol := new Intellitrac.IntelliTracAProtocol();
      r := protocol.Login(reader);
    case OBDII2G =>
      var protocol := new Obdii2g.AquilaOBDII2GProtocol();
      r := protocol.Login(reader);
    case GT06 => r := TryWanway(WanwayInfo.GT06, reader);
    case TR06 => r := TryWanway(WanwayInfo.TR06, reader);
    case FM1200 =>
      var protocol := new Fm1200.FM1200Protocol();
      r := protocol.Login(reader);
  }

  /**
   The attempts in order. Each sees the original stream, since every one that is moved past has
   taken nothing; on success the reader stands where that protocol's stream begins.
   */
  method AttemptDeviceLogin(reader: Reader, allowed: seq<ProtocolType>, authority: Authority, ghost login: ProtocolType -> Login)
      returns (r: Result<Identified>)
    requires reader.Valid() && Wanway.Honest(reader.source) && IsLogins(login, reader.source, reader.pos)
    modifies reader
    ensures reader.Valid()
    ensures match Attempt(allowed, login)
      case Refused(e) => r == Failure(e)
      case Chosen(t, id, ack, _) =>
        && reader.pos == StreamStart(t, reader.source, old(reader.pos))
        && |id| >= 15
        && r == match VerifyDevice(authority, id, Reported(t))
                case Failure(e) => Failure(e)
                case Success(deviceType) => Success(Identified(t, id, ack, deviceType))
  {
    ghost var p := reader.pos;
    var i := 0;
    while i < |allowed|
      invariant i <= |allowed| && reader.Valid() && reader.pos == p
      invariant Attempt(allowed, login) == Attempt(allowed[i..], login)
    {
      var t := allowed[i];
      assert login(t) == LoginOf(t, reader.source, p);
      assert allowed[i..][0] == t && allowed[i..][1..] == allowed[i + 1..];
      IdNotEmpty(t, reader.source, p);
      var attempt := TryLogin(t, reader);
      match attempt {
        case LoginFailed(e) =>
          if e != UnknownProtocol {
            return Failure(e);
          }
        case LoggedIn(id, ack, skip) =>
          var discarded := reader.Discard(skip);
          var verified := VerifyDevice(authority, id, Reported(t));
          match verified {
            case Failure(e) => return Failure(e);
            case Success(deviceType) => return Success(Identified(t, id, ack, deviceType));
          }
      }
      i := i + 1;
    }
    return Failure(UnknownDeviceType);
  }
}
