/** The writers and the reader of src/microham.c as they run: byte by byte, over global variables. */
module MicroHamDevice {
  import opened MicroHamFrames
  import opened MicroHamMessages

  /** The device file and the status byte. `write` passes on all bytes at once. */
  class Device {
    var statusbyte: bv8
    var stream: seq<bv8>

    constructor ()
      ensures statusbyte == 0 && stream == []
    {
      statusbyte, stream := 0, [];
    }

    method Write(bytes: array<bv8>)
      modifies this`stream
      ensures stream == old(stream) + bytes[..]
    {
      stream := stream + bytes[..];
    }

    /** The frame of a radio byte (lines 537-549). */
    method RadioBuffer(byte: bv8) returns (frame: array<bv8>)
      ensures fresh(frame) && frame[..] == UnitBytes(Radio(statusbyte, byte))
    {
      hide Data;
      hide Bit;
      hide Or;
      hide UnitBytes;
      hide When;
      hide AddBit;
      var header := AddBit(0x28, Bit(statusbyte, 0x80), 0x01);
      header := AddBit(header, Bit(byte, 0x80), 0x04);
      RadioBytes(statusbyte, byte, header);
      frame := new bv8[][header, Data(byte), 0x80, Data(statusbyte)];
    }

    /** Lines 537-552. */
    method WriteRadioByte(byte: bv8)
      modifies this`stream
      ensures stream == old(stream) + UnitBytes(Radio(statusbyte, byte))
    {
      hide UnitBytes;
      var frame := RadioBuffer(byte);
      Write(frame);
    }

    /** `writeRadio` (lines 520-564). */
    method WriteRadio(bytes: seq<bv8>) returns (ghost units: seq<Unit>)
      modifies this`stream
      ensures Whole(Sent(RadioMessage(bytes), units)) && stream == old(stream) + Bytes(units)
      ensures forall u | u in units :: u.status == statusbyte
    {
      hide UnitBytes;
      units := [];
      var i := 0;
      while i < |bytes|
        invariant 0 <= i <= |bytes| && |units| == i && stream == old(stream) + Bytes(units)
        invariant Begins(RadioMessage(bytes), units) && forall u | u in units :: u.status == statusbyte
      {
        WriteRadioByte(bytes[i]);
        Appended(old(stream), units, Radio(statusbyte, bytes[i]));
        units := units + [Radio(statusbyte, bytes[i])];
        i := i + 1;
      }
    }

    /** `writeFlags` (lines 571-600). */
    method WriteFlags()
      modifies this`stream
      ensures stream == old(stream) + UnitBytes(Flags(statusbyte))
    {
      hide Data;
      hide Bit;
      hide Or;
      hide UnitBytes;
      OrNothing(0x08);
      var frame := new bv8[4];
      frame[0] := 0x08;
      if Bit(statusbyte, 0x80) {
        frame[0] := 0x09;
      }
      frame[1] := 0x80;
      frame[2] := 0x80;
      frame[3] := Data(statusbyte);
      FlagsBytes(statusbyte, frame[0]);
      assert frame[..] == [frame[0], frame[1], frame[2], frame[3]];
      Write(frame);
    }

    /** The three frames of a WinKey byte (lines 624-644): status, no-op and the byte. */
    method WkeyFrames(byte: bv8) returns (frame: array<bv8>)
      ensures fresh(frame) && frame[..] == UnitBytes(Wkey(statusbyte, byte))
    {
      hide Data;
      hide Bit;
      hide Or;
      hide UnitBytes;
      hide When;
      hide AddBit;
      var first := AddBit(0x08, Bit(statusbyte, 0x80), 0x01);
      var third := AddBit(0x48, Bit(byte, 0x80), 0x01);
      WkeyBytes(statusbyte, byte, first, third);
      frame := new bv8[][first, 0x80, 0x80, Data(statusbyte), 0x40, 0x80, 0x80, 0x80, third, 0x80, 0x80, Data(byte)];
    }

    /** Lines 624-647. */
    method WriteWkeyByte(byte: bv8)
      modifies this`stream
      ensures stream == old(stream) + UnitBytes(Wkey(statusbyte, byte))
    {
      hide UnitBytes;
      var frame := WkeyFrames(byte);
      Write(frame);
    }

    /** `writeWkey` (lines 607-659). */
    method WriteWkey(bytes: seq<bv8>) returns (ghost units: seq<Unit>)
      modifies this`stream
      ensures Whole(Sent(WkeyMessage(bytes), units)) && stream == old(stream) + Bytes(units)
      ensures forall u | u in units :: u.status == statusbyte
    {
      hide UnitBytes;
      units := [];
      var i := 0;
      while i < |bytes|
        invariant 0 <= i <= |bytes| && |units| == i && stream == old(stream) + Bytes(units)
        invariant Begins(WkeyMessage(bytes), units) && forall u | u in units :: u.status == statusbyte
      {
        WriteWkeyByte(bytes[i]);
        Appended(old(stream), units, Wkey(statusbyte, bytes[i]));
        units := units + [Wkey(statusbyte, bytes[i])];
        i := i + 1;
      }
    }

    /** The two frames of a control byte (lines 685-707): status and the byte. */
    method ControlFrames(byte: bv8, last: bool) returns (frame: array<bv8>)
      ensures fresh(frame) && frame[..] == UnitBytes(Control(statusbyte, byte, !last))
    {
      hide Data;
      hide Bit;
      hide Or;
      hide UnitBytes;
      hide When;
      hide AddBit;
      var first := AddBit(0x08, Bit(statusbyte, 0x80), 0x01);
      var second := AddBit(if last then 0x40 else 0x48, Bit(byte, 0x80), 0x01);
      ControlBytes(statusbyte, byte, !last, first, second);
      frame := new bv8[][first, 0x80, 0x80, Data(statusbyte), second, 0x80, 0x80, Data(byte)];
    }

    /** Lines 685-710. */
    method WriteControlByte(byte: bv8, last: bool)
      modifies this`stream
      ensures stream == old(stream) + UnitBytes(Control(statusbyte, byte, !last))
    {
      hide UnitBytes;
      var frame := ControlFrames(byte, last);
      Write(frame);
    }

    /** `writeControl` (lines 666-722). */
    method WriteControl(data: seq<bv8>) returns (ghost units: seq<Unit>)
      modifies this`stream
      ensures Whole(Sent(ControlMessage(data), units)) && stream == old(stream) + Bytes(units)
      ensures forall u | u in units :: u.status == statusbyte
    {
      hide UnitBytes;
      units := [];
      var i := 0;
      while i < |data|
        invariant 0 <= i <= |data| && |units| == i && stream == old(stream) + Bytes(units)
        invariant Begins(ControlMessage(data), units) && forall u | u in units :: u.status == statusbyte
      {
        WriteControlByte(data[i], i == 0 || i == |data| - 1);
        Appended(old(stream), units, Control(statusbyte, data[i], !(i == 0 || i == |data| - 1)));
        units := units + [Control(statusbyte, data[i], !(i == 0 || i == |data| - 1))];
        i := i + 1;
      }
    }

    /** `uh_set_ptt` (lines 1233-1253). */
    method SetPtt(inUse: bool, ptt: bool)
      modifies this
      ensures inUse ==>
              statusbyte == WithPtt(old(statusbyte), ptt) && stream == old(stream) + UnitBytes(Flags(statusbyte))
      ensures !inUse ==> statusbyte == old(statusbyte) && stream == old(stream)
    {
      if !inUse {
        return;
      }
      if ptt {
        statusbyte := statusbyte | 0x04;
      } else {
        statusbyte := statusbyte & !(0x04 as bv8);
      }
      WriteFlags();
    }

    /** `uh_get_ptt` (lines 1256-1268). */
    method GetPtt() returns (ptt: int)
      ensures ptt == if PttBit(statusbyte) then 1 else 0
    {
      if statusbyte & 0x04 != 0 {
        return 1;
      } else {
        return 0;
      }
    }
  }

  lemma OrNothing(h: bv8)
    ensures Or(h, 0) == h && Or(0x08, 0x01) == 0x09
  {
  }

  /** `if (c) header |= bit` */
  function AddBit(header: bv8, c: bool, bit: bv8): (r: bv8)
    ensures r == Or(header, When(c, bit))
  {
    OrNothing(header);
    if c then Or(header, bit) else header
  }

  lemma Appended(stream: seq<bv8>, units: seq<Unit>, u: Unit)
    ensures stream + Bytes(units) + UnitBytes(u) == stream + Bytes(units + [u])
  {
    hide UnitBytes;
    BytesMore(units, u);
  }

  lemma RadioBytes(status: bv8, byte: bv8, header: bv8)
    requires header == Or(Or(0x28, When(Bit(status, 0x80), 0x01)), When(Bit(byte, 0x80), 0x04))
    ensures UnitBytes(Radio(status, byte)) == [header, Data(byte), 0x80, Data(status)]
  {
    OneFrame(RadioFrame(status, byte));
  }

  lemma FlagsBytes(status: bv8, header: bv8)
    requires header == if Bit(status, 0x80) then 0x09 else 0x08
    ensures UnitBytes(Flags(status)) == [header, 0x80, 0x80, Data(status)]
  {
    OneFrame(StatusFrame(status));
  }

  lemma ControlBytes(status: bv8, byte: bv8, valid: bool, h1: bv8, h2: bv8)
    requires h1 == Or(0x08, When(Bit(status, 0x80), 0x01))
    requires h2 == Or(if valid then 0x48 else 0x40, When(Bit(byte, 0x80), 0x01))
    ensures UnitBytes(Control(status, byte, valid)) == [h1, 0x80, 0x80, Data(status), h2, 0x80, 0x80, Data(byte)]
  {
    TwoFrames(StatusFrame(status), SharedFrame(if valid then 0x48 else 0x40, byte));
  }

  lemma WkeyBytes(status: bv8, byte: bv8, h1: bv8, h3: bv8)
    requires h1 == Or(0x08, When(Bit(status, 0x80), 0x01)) && h3 == Or(0x48, When(Bit(byte, 0x80), 0x01))
    ensures UnitBytes(Wkey(status, byte))
         == [h1, 0x80, 0x80, Data(status), 0x40, 0x80, 0x80, 0x80, h3, 0x80, 0x80, Data(byte)]
  {
    var a, c := StatusFrame(status), SharedFrame(0x48, byte);
    assert [a, NO_OP, c][1..] == [NO_OP, c];
    TwoFrames(NO_OP, c);
  }
}
