/** The guard object. A disconnect callback is the `fired` result of the method that makes it. */
module IocGuards {
  import opened Prelude
  import opened Heartbeat

  const CLOSED: int := -1

  class IocGuard {
    const addr: Addr
    const handle: nat  // identity of the shared object
    const started: Time
    var sock: int
    var connected: bool
    var initialized: bool
    var lastRequest: Time
    var lastResponse: Time

    ghost function Model(): Guard
      reads this
    {
      Guard(addr, sock != CLOSED, connected, initialized, started, lastRequest, lastResponse)
    }

    constructor (handle: nat, addr: Addr, sock: int, now: Time)
      requires sock != CLOSED
      ensures Model() == NewGuard(addr, now)
      ensures this.handle == handle && this.addr == addr
    {
      this.handle, this.addr, this.sock, started := handle, addr, sock, now;
      connected, initialized := false, false;
      lastRequest, lastResponse := 0, 0;
    }

    predicate IsConnected()
      reads this
    {
      sock != CLOSED
    }

    method ProcessIncoming(now: Time, recvd: int) returns (fired: bool)
      modifies this
      ensures var r := Receive(old(Model()), now, recvd); Model() == r.0 && fired == r.1.dropped
    {
      fired := false;
      if sock != CLOSED {
        if recvd > 0 {
          lastResponse := now;
          initialized := true;
        } else {
          sock := CLOSED;
          fired := true;
        }
      }
    }

    method ProcessOutgoing(now: Time, writable: bool, sendOk: bool) returns (fired: bool, sent: Option<bool>)
      modifies this
      ensures var r := PollOnce(old(Model()), now, writable, sendOk);
              Model() == r.0 && Effect(fired, sent) == r.1
    {
      fired, sent := false, None;
      if sock != CLOSED {
        var ok;
        ok, fired := CheckConnection(now, writable);
        if ok {
          if Truncate(now - lastRequest, SECOND) > HEARTBEAT_INTERVAL {
            fired, sent := SendHeartBeat(now, sendOk);
          }
        }
      }
    }

    method CheckConnection(now: Time, writable: bool) returns (ok: bool, fired: bool)
      requires sock != CLOSED
      modifies this
      ensures var r := Heartbeat.CheckConnection(old(Model()), now, writable);
              Model() == r.0 && ok == r.1 && Effect(fired, None) == r.2
    {
      fired := false;
      if !connected {
        if !writable {
          if Truncate(now - started, SECOND) > CONNECT_TIMEOUT {
            sock := CLOSED;
            fired := true;
          }
          return false, fired;
        }
        connected := true;
        lastResponse := now;
      }
      return true, false;
    }

    /** The echo request carries a VERSION header until the IOC has been heard. */
    method SendHeartBeat(now: Time, sendOk: bool) returns (fired: bool, sent: Option<bool>)
      requires sock != CLOSED
      modifies this
      ensures var r := Heartbeat.SendHeartBeat(old(Model()), now, sendOk);
              Model() == r.0 && Effect(fired, sent) == r.1
    {
      if lastRequest < lastResponse {
        if sendOk {
          sent := Some(!initialized);
          lastRequest := now;
          return false, sent;
        }
      }
      sock := CLOSED;
      return true, None;
    }
  }
}
