/**
 * Endpoint bookkeeping of the SMTP client pool: an endpoint is a TCP server
 * or a local process, with a capacity and two lists of sessions, those
 * sending and those idle.  Sessions themselves are opaque here; destroying
 * one is an event recorded in the order it happens.  The read/write lock
 * that guards the lists is left out (sequential execution).
 */
module SmtpEndpoint {

  /** 2^64: size_t and M_uint64 arithmetic wraps modulo this. */
  const SizeModulus: int := 0x1_0000_0000_0000_0000

  type Size = n: nat | n < SizeModulus
  type Port = n: nat | n < 0x1_0000

  /** A session list as M_list holds it: its length fits in a size_t. */
  type SessionList = s: seq<Session> | |s| < SizeModulus

  /** An M_net_smtp_session_t, known only by identity. */
  datatype Session = Session(id: nat)

  /** M_net_smtp_endpoint_type_t */
  datatype EndpointType = EpTypeTcp | EpTypeProcess

  /** The kind-specific configuration: the `tcp` or the `process` part. */
  datatype EndpointConfig =
    | TcpConfig(address: string, port: Port, connectTls: bool, username: string, password: string)
    | ProcessConfig(command: string, args: seq<string>, env: map<string, string>, timeoutMs: Size)

  /** The owned configuration fields that destruction releases. */
  datatype ConfigField = FieldAddress | FieldUsername | FieldPassword | FieldCommand | FieldArgs | FieldEnv

  /** Which endpoint kind a configuration field belongs to. */
  function FieldKind(f: ConfigField): EndpointType
  {
    match f
    case FieldAddress | FieldUsername | FieldPassword => EpTypeTcp
    case FieldCommand | FieldArgs | FieldEnv => EpTypeProcess
  }

  /** The configuration fields an endpoint of this kind owns: only those of its own kind, each once. */
  function OwnedFields(c: EndpointConfig): (fs: seq<ConfigField>)
    ensures |fs| == 3
    ensures forall i, j :: 0 <= i < j < |fs| ==> fs[i] != fs[j]
    ensures forall f :: f in fs <==> FieldKind(f) == (if c.TcpConfig? then EpTypeTcp else EpTypeProcess)
  {
    match c
    case TcpConfig(_, _, _, _, _) => [FieldAddress, FieldUsername, FieldPassword]
    case ProcessConfig(_, _, _, _) => [FieldCommand, FieldArgs, FieldEnv]
  }

  /**
   * M_net_smtp_endpoint_is_available: `max_sessions - len(send_sessions) > 0`
   * computed on size_t, so it holds exactly when the two differ; a send list
   * longer than the capacity wraps around and still reads as available.
   */
  predicate AvailableU64(maxSessions: Size, sending: Size)
    ensures AvailableU64(maxSessions, sending) <==> sending != maxSessions
  {
    (maxSessions - sending) % SizeModulus > 0
  }

  /** Within capacity, availability means there is room for one more sending session. */
  lemma AvailableWithinCapacity(maxSessions: Size, sending: Size)
    requires sending <= maxSessions
    ensures AvailableU64(maxSessions, sending) <==> sending < maxSessions
  {
  }

  /** The first element last: the order in which taking from the tail visits a list. */
  function Reversed(s: seq<Session>): (r: seq<Session>)
    ensures |r| == |s|
  {
    if s == [] then [] else Reversed(s[1..]) + [s[0]]
  }

  lemma {:induction false} ReversedMultiset(s: seq<Session>)
    ensures multiset(Reversed(s)) == multiset(s)
  {
    if s != [] {
      ReversedMultiset(s[1..]);
      assert s == [s[0]] + s[1..];
    }
  }

  /** Taking one more element from the tail of `s` extends the visit order by it. */
  lemma ReversedSuffixStep(s: seq<Session>, k: nat)
    requires 0 < k <= |s|
    ensures Reversed(s[k - 1..]) == Reversed(s[k..]) + [s[k - 1]]
  {
    assert s[k - 1..][1..] == s[k..];
  }

  /** M_net_smtp_endpoint_t */
  class Endpoint {
    var config: EndpointConfig
    var maxSessions: Size
    var sendSessions: SessionList
    var idleSessions: SessionList

    /** The `type` tag, which always matches the configuration variant. */
    function EpType(): EndpointType
      reads this
    {
      if config.TcpConfig? then EpTypeTcp else EpTypeProcess
    }

    /** M_net_smtp_endpoint_is_available; only the sending sessions count. */
    predicate IsAvailable()
      reads this
      ensures IsAvailable() <==> |sendSessions| != maxSessions
    {
      AvailableU64(maxSessions, |sendSessions|)
    }

    /** M_net_smtp_endpoint_is_idle: nothing is sending, whatever is idle. */
    predicate IsIdle()
      reads this
      ensures IsIdle() <==> sendSessions == []
    {
      |sendSessions| == 0
    }

    /** M_net_smtp_endpoint_create_tcp */
    constructor CreateTcp(address: string, port: Port, connectTls: bool, username: string,
                          password: string, maxConns: Size)
      ensures EpType() == EpTypeTcp
      ensures config == TcpConfig(address, port, connectTls, username, password)
      ensures maxSessions == maxConns && sendSessions == [] && idleSessions == []
      ensures IsIdle() && (IsAvailable() <==> maxConns != 0)
    {
      config := TcpConfig(address, port, connectTls, username, password);
      maxSessions := maxConns;
      sendSessions := [];
      idleSessions := [];
    }

    /** M_net_smtp_endpoint_create_proc */
    constructor CreateProc(command: string, args: seq<string>, env: map<string, string>,
                           timeoutMs: Size, maxProcesses: Size)
      ensures EpType() == EpTypeProcess
      ensures config == ProcessConfig(command, args, env, timeoutMs)
      ensures maxSessions == maxProcesses && sendSessions == [] && idleSessions == []
      ensures IsIdle() && (IsAvailable() <==> maxProcesses != 0)
    {
      config := ProcessConfig(command, args, env, timeoutMs);
      sendSessions := [];
      idleSessions := [];
      maxSessions := maxProcesses;
    }

    /**
     * M_net_smtp_endpoint_destroy: drain and destroy every session, then
     * release the configuration of the endpoint's own kind.
     */
    method Destroy() returns (destroyed: seq<Session>, released: seq<ConfigField>)
      modifies this
      ensures sendSessions == [] && idleSessions == []
      ensures destroyed == Reversed(old(sendSessions)) + Reversed(old(idleSessions))
      ensures multiset(destroyed) == multiset(old(sendSessions)) + multiset(old(idleSessions))
      ensures config == old(config) && maxSessions == old(maxSessions)
      ensures released == OwnedFields(config)
    {
      destroyed := DrainSessions();
      match config {
        case ProcessConfig(_, _, _, _) =>
          released := [FieldCommand, FieldArgs, FieldEnv];
        case TcpConfig(_, _, _, _, _) =>
          released := [FieldAddress, FieldUsername, FieldPassword];
      }
    }

    /**
     * The loop of M_net_smtp_endpoint_destroy: take sessions from the tail of
     * the sending list until it is empty, then from the tail of the idle
     * list, destroying each; `destroyed` records the order.
     */
    method DrainSessions() returns (destroyed: seq<Session>)
      modifies this`sendSessions, this`idleSessions
      ensures sendSessions == [] && idleSessions == []
      ensures destroyed == Reversed(old(sendSessions)) + Reversed(old(idleSessions))
      ensures multiset(destroyed) == multiset(old(sendSessions)) + multiset(old(idleSessions))
    {
      ghost var send0, idle0 := sendSessions, idleSessions;
      destroyed := [];
      while |sendSessions| > 0 || |idleSessions| > 0
        invariant |sendSessions| <= |send0| && |idleSessions| <= |idle0|
        invariant sendSessions == send0[..|sendSessions|]
        invariant idleSessions == idle0[..|idleSessions|]
        invariant sendSessions != [] ==> idleSessions == idle0
        invariant destroyed == Reversed(send0[|sendSessions|..]) + Reversed(idle0[|idleSessions|..])
        decreases |sendSessions| + |idleSessions|
      {
        var session: Session;
        if |sendSessions| > 0 {
          var n := |sendSessions|;
          session := sendSessions[n - 1];
          ReversedSuffixStep(send0, n);
          sendSessions := sendSessions[..n - 1];
          assert idle0[|idleSessions|..] == [];
        } else {
          var n := |idleSessions|;
          session := idleSessions[n - 1];
          ReversedSuffixStep(idle0, n);
          idleSessions := idleSessions[..n - 1];
        }
        destroyed := destroyed + [session];
      }
      assert send0[0..] == send0 && idle0[0..] == idle0;
      ReversedMultiset(send0);
      ReversedMultiset(idle0);
    }
  }
}
