/** The CD-ROM drive's two status bytes and its parameter, response and interrupt
    queues. Both status bytes are unions of a byte and a bit-field struct; the bit
    positions below follow the usual little-endian allocation, first field in
    bit 0. */
module Cdrom {

  // ---------------------------------------------------------------------------
  // StatusCode, the drive's own status byte ("stat")
  // ---------------------------------------------------------------------------

  const ERROR: bv8 := 0x01
  const MOTOR: bv8 := 0x02
  const SEEK_ERROR: bv8 := 0x04
  const ID_ERROR: bv8 := 0x08
  const SHELL_OPEN: bv8 := 0x10
  const READ: bv8 := 0x20
  const SEEK: bv8 := 0x40
  const PLAY: bv8 := 0x80

  /** Whether the bits of `mask` are all set in `r`. */
  predicate Bit(r: bv8, mask: bv8)
  {
    r & mask == mask
  }

  datatype Mode = None | Reading | Seeking | Playing

  /** The one activity bit a mode sets; `None` sets none. */
  function ModeBit(mode: Mode): bv8
  {
    match mode
    case None => 0
    case Reading => READ
    case Seeking => SEEK
    case Playing => PLAY
  }

  /** The status byte after `setMode`: only the shell bit survives, joined by the
      mode's activity bit. */
  function WithMode(r: bv8, mode: Mode): bv8
  {
    (r & SHELL_OPEN) | ModeBit(mode)
  }

  /** The status byte after `toggleShell`: a closed shell opens and every other
      flag is cleared (through `setMode(None)`); an open shell closes and nothing
      else changes. */
  function Toggled(r: bv8): bv8
  {
    if Bit(r, SHELL_OPEN) then r & !SHELL_OPEN else SHELL_OPEN
  }

  /** `setMode` clears the error, seek-error, id-error and motor flags, sets exactly
      the activity flag of the mode and keeps the shell flag. */
  lemma SetModeFlags(r: bv8, mode: Mode)
    ensures var s := WithMode(r, mode);
      && !Bit(s, ERROR) && !Bit(s, SEEK_ERROR) && !Bit(s, ID_ERROR) && !Bit(s, MOTOR)
      && (Bit(s, READ) <==> mode == Reading)
      && (Bit(s, SEEK) <==> mode == Seeking)
      && (Bit(s, PLAY) <==> mode == Playing)
      && (Bit(s, SHELL_OPEN) <==> Bit(r, SHELL_OPEN))
  {
    match mode
    case None =>
    case Reading =>
    case Seeking =>
    case Playing =>
  }

  /** `toggleShell` flips the shell flag. Opening it leaves no other flag set;
      closing it changes no other flag. */
  lemma ToggleFlips(r: bv8)
    ensures Bit(Toggled(r), SHELL_OPEN) <==> !Bit(r, SHELL_OPEN)
    ensures !Bit(r, SHELL_OPEN) ==> Toggled(r) == SHELL_OPEN
    ensures Bit(r, SHELL_OPEN) ==> Toggled(r) | SHELL_OPEN == r
  {
  }

  /** Opening then closing the shell of a closed drive clears every flag. */
  lemma {:induction false} ToggleTwiceFromClosed(r: bv8)
    requires !Bit(r, SHELL_OPEN)
    ensures Toggled(Toggled(r)) == 0
  {
    ToggleFlips(r);
    assert Toggled(r) == SHELL_OPEN;
  }

  class StatusCode {
    var reg: bv8

    /** The status starts with every flag clear. */
    constructor()
      ensures reg == 0
    {
      reg := 0;
    }

    /** `setMode`: the three error flags cleared, then the motor and activity
        flags, then the mode's activity flag set. */
    method SetMode(mode: Mode)
      modifies this
      ensures reg == WithMode(old(reg), mode)
    {
      reg := reg & !(ERROR | SEEK_ERROR | ID_ERROR);
      reg := reg & !(MOTOR | READ | SEEK | PLAY);
      if mode == Reading {
        reg := reg | READ;
      } else if mode == Seeking {
        reg := reg | SEEK;
      } else if mode == Playing {
        reg := reg | PLAY;
      }
    }

    /** `toggleShell`: a closed shell is opened and the mode reset to `None`; an
        open shell is closed. */
    method ToggleShell()
      modifies this
      ensures reg == Toggled(old(reg))
    {
      if reg & SHELL_OPEN == 0 {
        reg := reg | SHELL_OPEN;
        SetMode(None);
      } else {
        reg := reg & !SHELL_OPEN;
      }
    }
  }

  // ---------------------------------------------------------------------------
  // CDROM_Status, the host-visible status register
  // ---------------------------------------------------------------------------

  const INDEX: bv8 := 0x03
  const XA_FIFO_EMPTY: bv8 := 0x04
  const PARAMETER_FIFO_EMPTY: bv8 := 0x08
  const PARAMETER_FIFO_FULL: bv8 := 0x10
  const RESPONSE_FIFO_EMPTY: bv8 := 0x20
  const DATA_FIFO_EMPTY: bv8 := 0x40
  const TRANSMISSION_BUSY: bv8 := 0x80

  /** The reset value of the host status register. */
  const STATUS_RESET: bv8 := 0x18

  /** The reset status: index 0, parameter FIFO empty and full flags set, every
      other flag clear. */
  lemma ResetStatus()
    ensures STATUS_RESET & INDEX == 0
    ensures Bit(STATUS_RESET, PARAMETER_FIFO_EMPTY) && Bit(STATUS_RESET, PARAMETER_FIFO_FULL)
    ensures !Bit(STATUS_RESET, XA_FIFO_EMPTY) && !Bit(STATUS_RESET, RESPONSE_FIFO_EMPTY)
    ensures !Bit(STATUS_RESET, DATA_FIFO_EMPTY) && !Bit(STATUS_RESET, TRANSMISSION_BUSY)
  {
  }

  /** The host status after a byte is queued for the response: the
      `responseFifoEmpty` field set (on the hardware this bit means "response
      ready"). */
  function AfterResponseWrite(s: bv8): bv8
  {
    s | RESPONSE_FIFO_EMPTY
  }

  /** The host status after a parameter is taken: `parameterFifoEmpty` tells
      whether the queue is now empty, `parameterFifoFull` is set. */
  function AfterParamRead(s: bv8, nowEmpty: bool): bv8
  {
    var full := s | PARAMETER_FIFO_FULL;
    if nowEmpty then full | PARAMETER_FIFO_EMPTY else full & !PARAMETER_FIFO_EMPTY
  }

  /** Writing a response sets its flag and touches no other field. */
  lemma ResponseWriteFlags(s: bv8)
    ensures Bit(AfterResponseWrite(s), RESPONSE_FIFO_EMPTY)
    ensures AfterResponseWrite(s) & !RESPONSE_FIFO_EMPTY == s & !RESPONSE_FIFO_EMPTY
  {
  }

  /** Taking a parameter sets the empty flag to the queue's emptiness and the full
      flag to 1, and touches no other field. */
  lemma ParamReadFlags(s: bv8, nowEmpty: bool)
    ensures Bit(AfterParamRead(s, nowEmpty), PARAMETER_FIFO_EMPTY) <==> nowEmpty
    ensures Bit(AfterParamRead(s, nowEmpty), PARAMETER_FIFO_FULL)
    ensures var others := !(PARAMETER_FIFO_EMPTY | PARAMETER_FIFO_FULL);
      AfterParamRead(s, nowEmpty) & others == s & others
  {
  }

  /** The drive: the host status, the interrupt-enable byte, the three byte queues
      and the drive's own status byte. */
  class Drive {
    var status: bv8
    var interruptEnable: bv8
    var params: seq<bv8>
    var response: seq<bv8>
    var interrupt: seq<bv8>
    var sectorSize: bool
    var readSector: int
    const stat: StatusCode

    /** The flags the queue operations keep in step with the queues: the parameter
        empty flag says whether the parameter queue is empty, and a non-empty
        response queue has its flag set. */
    predicate InStep()
      reads this
    {
      && (Bit(status, PARAMETER_FIFO_EMPTY) <==> params == [])
      && (response != [] ==> Bit(status, RESPONSE_FIFO_EMPTY))
    }

    /** The initial values of the members. */
    constructor()
      ensures status == STATUS_RESET && interruptEnable == 0
      ensures params == [] && response == [] && interrupt == []
      ensures !sectorSize && readSector == 0
      ensures fresh(stat) && stat.reg == 0
      ensures InStep()
    {
      status := STATUS_RESET;
      interruptEnable := 0;
      params := [];
      response := [];
      interrupt := [];
      sectorSize := false;
      readSector := 0;
      stat := new StatusCode();
    }

    /** `writeResponse`: the byte joins the back of the response queue. */
    method WriteResponse(b: bv8)
      modifies this
      ensures response == old(response) + [b]
      ensures status == AfterResponseWrite(old(status))
      ensures params == old(params) && interrupt == old(interrupt)
      ensures interruptEnable == old(interruptEnable)
      ensures sectorSize == old(sectorSize) && readSector == old(readSector)
      ensures old(InStep()) ==> InStep()
    {
      response := response + [b];
      status := status | RESPONSE_FIFO_EMPTY;
      ResponseWriteFlags(old(status));
    }

    /** `readParam`: the front of the parameter queue, which must not be empty,
        removed and returned. */
    method ReadParam() returns (p: bv8)
      requires params != []
      modifies this
      ensures p == old(params)[0] && params == old(params)[1..]
      ensures old(params) == [p] + params
      ensures status == AfterParamRead(old(status), params == [])
      ensures response == old(response) && interrupt == old(interrupt)
      ensures interruptEnable == old(interruptEnable)
      ensures sectorSize == old(sectorSize) && readSector == old(readSector)
      ensures old(InStep()) ==> InStep()
    {
      p := params[0];
      params := params[1..];
      var emptied := params == [];
      if emptied {
        status := status | PARAMETER_FIFO_EMPTY;
      } else {
        status := status & !PARAMETER_FIFO_EMPTY;
      }
      status := status | PARAMETER_FIFO_FULL;
      assert status == AfterParamRead(old(status), emptied);
      ParamReadFlags(old(status), emptied);
    }

    /** `ackMoreData`: an interrupt of type 1 queued, and the drive's status byte
        queued as its response. */
    method AckMoreData()
      modifies this
      ensures interrupt == old(interrupt) + [1]
      ensures response == old(response) + [stat.reg]
      ensures status == AfterResponseWrite(old(status))
      ensures params == old(params)
      ensures interruptEnable == old(interruptEnable)
      ensures sectorSize == old(sectorSize) && readSector == old(readSector)
      ensures old(InStep()) ==> InStep()
    {
      interrupt := interrupt + [1];
      WriteResponse(stat.reg);
    }

    /** The drive's `toggleShell`, forwarded to its status byte. */
    method ToggleShell()
      modifies stat
      ensures stat.reg == Toggled(old(stat.reg))
    {
      stat.ToggleShell();
    }
  }
}
