/** The client's receive side and its claim on a result (client/src/service/TransferService.cpp:471-815). */
module ResultClient {
  import opened Bytes
  import opened Codec
  import Framer
  import Crc32

  datatype Expecting = Nothing | AckExpected | HeaderExpected | CsvExpected | ReplyExpected

  /** What a result is asked for by, and how much of it is already there. */
  datatype Claim = Claim(filename: Bytes, fileSize: nat, crc32: nat, received: nat)

  const NO_CLAIM := Claim([], 0, 0, 0)

  /** `upload` is the file last sent; `result` is the last file handed to the user. */
  datatype Client = Client(
    expecting: Expecting, framer: Framer.State,
    csv: Bytes, csvSize: nat, expectedCrc: nat,
    hasClaim: bool, claim: Claim, upload: Claim,
    open: bool, completed: bool, result: Bytes)

  const IDLE := Client(Nothing, Framer.Fresh(AckType, AckType), [], 0, 0, false, NO_CLAIM, NO_CLAIM, false, false, [])

  /** A handler's effect and the bytes it used up. */
  datatype Step = Step(client: Client, consumed: nat)

  /** TransferService.cpp:797-815: the fragment is kept only if there is a claim to resume it under. */
  function Fail(c: Client): Client {
    var c := c.(expecting := Nothing, open := false);
    if c.hasClaim then c.(claim := c.claim.(received := |c.csv|)) else c.(csv := [])
  }

  /** TransferService.cpp:703-710. */
  function DropClaim(c: Client): Client {
    c.(hasClaim := false, claim := NO_CLAIM)
  }

  /** TransferService.cpp:650-701. `ok` says whether the confirmation could be sent: if not, the result is
      there, but the session has failed. */
  function FinishDownload(c: Client, ok: bool): Client {
    if Crc32.Crc(c.csv) != c.expectedCrc
    then Fail(c.(csv := [], claim := if c.hasClaim then c.claim.(received := 0) else c.claim))
    else
      var c := DropClaim(c.(result := c.csv, csv := [], expecting := Nothing));
      if ok then c.(completed := true) else Fail(c)
  }

  /** TransferService.cpp:580-623. */
  function BeginCsv(c: Client, csvSize: nat, crc: nat, resuming: bool, consumed: nat, ok: bool): Step {
    if csvSize > MAX_CSV_SIZE || (resuming && |c.csv| > csvSize) then Step(Fail(c), 0)
    else
      var c := c.(csvSize := csvSize, expectedCrc := crc, csv := if resuming then c.csv else [],
                  expecting := CsvExpected);
      Step(if |c.csv| == csvSize then FinishDownload(c, ok) else c, consumed)
  }

  /** TransferService.cpp:502-553. */
  function HandleAck(c: Client, data: Bytes): (r: Step)
    ensures r.consumed <= |data|
  {
    var (f, n) := Framer.Absorbed(c.framer, data);
    var c := c.(framer := f);
    if f.status == NeedMoreData then Step(c, n)
    else if f.status != Done then Step(Fail(c), 0)
    else
      match Decode(AckType, f.buffer)
      case Ok(Ack(AckOk, _)) =>
        Step(c.(hasClaim := true, claim := c.upload.(received := 0), expecting := HeaderExpected,
                framer := Framer.Fresh(ResultHeaderType, ResultHeaderType)), n)
      case _ => Step(Fail(c), 0)
  }

  /** TransferService.cpp:555-576. */
  function HandleHeader(c: Client, data: Bytes, ok: bool): (r: Step)
    ensures r.consumed <= |data|
  {
    var (f, n) := Framer.Absorbed(c.framer, data);
    var c := c.(framer := f);
    if f.status == NeedMoreData then Step(c, n)
    else if f.status != Done then Step(Fail(c), 0)
    else
      match Decode(ResultHeaderType, f.buffer)
      case Ok(ResultHeader(csvSize, crc)) => BeginCsv(c, csvSize, crc, false, n, ok)
      case _ => Step(Fail(c), 0)
  }

  /** TransferService.cpp:625-648. */
  function HandleCsv(c: Client, data: Bytes, ok: bool): (r: Step)
    ensures r.consumed <= |data|
  {
    var n := if c.csvSize <= |c.csv| then 0 else Min(c.csvSize - |c.csv|, |data|);
    var c := c.(csv := c.csv + data[..n]);
    var c := if c.hasClaim then c.(claim := c.claim.(received := |c.csv|)) else c;
    Step(if |c.csv| == c.csvSize then FinishDownload(c, ok) else c, n)
  }

  /** TransferService.cpp:749-795: a refusal costs the claim and the fragment. */
  function HandleReply(c: Client, data: Bytes, ok: bool): (r: Step)
    ensures r.consumed <= |data|
  {
    var (f, n) := Framer.Absorbed(c.framer, data);
    var c := c.(framer := f);
    if f.status == NeedMoreData then Step(c, n)
    else if f.status != Done then Step(Fail(c), 0)
    else if |f.buffer| >= PREAMBLE_SIZE && ByteAt(f.buffer, 5) == TypeCode(AckType)
    then Step(Fail(DropClaim(c).(csv := [])), 0)
    else
      match Decode(ResultHeaderType, f.buffer)
      case Ok(ResultHeader(csvSize, crc)) => BeginCsv(c, csvSize, crc, true, n, ok)
      case _ => Step(Fail(c), 0)
  }

  function Handle(c: Client, data: Bytes, ok: bool): (r: Step)
    ensures r.consumed <= |data|
  {
    match c.expecting
    case AckExpected => HandleAck(c, data)
    case HeaderExpected => HandleHeader(c, data, ok)
    case CsvExpected => HandleCsv(c, data, ok)
    case ReplyExpected => HandleReply(c, data, ok)
    case Nothing => Step(Fail(c), 0)
  }

  /** TransferService.cpp:471-500: several messages may arrive in one piece. */
  function OnBytes(c: Client, data: Bytes, ok: bool): (r: Client)
    decreases |data|
  {
    if data == [] then c
    else
      var step := Handle(c, data, ok);
      if step.consumed == 0 then step.client else OnBytes(step.client, data[step.consumed..], ok)
  }

  /** TransferService.cpp:330-363 and 817-846: a file has been sent, its trailer included. */
  function Uploaded(c: Client, filename: Bytes, fileSize: nat, crc32: nat): Client {
    DropClaim(c).(upload := Claim(filename, fileSize, crc32, 0), csv := [], csvSize := 0, expectedCrc := 0,
                  result := [], expecting := AckExpected, framer := Framer.Fresh(AckType, AckType))
  }

  function Request(c: Client): Message {
    ResultRequest(c.claim.fileSize, c.claim.crc32, c.claim.received, c.claim.filename)
  }

  /** TransferService.cpp:712-747, the request having been sent. */
  function Requested(c: Client): Client {
    c.(framer := Framer.Fresh(AckType, ResultHeaderType), expecting := ReplyExpected, completed := false)
  }

  /** TransferService.cpp:97-137: the connection is lost or given up. */
  function Lost(c: Client): Client {
    if c.expecting == Nothing then c.(open := false) else Fail(c)
  }

  /** TransferService.cpp:257-271. */
  function Connected(c: Client): Client {
    if c.open then c else c.(open := true, completed := false)
  }

  // ---- The source's object ----

  class TransferService {
    var expecting: Expecting
    const framer: Framer.Framer
    var csv: Bytes
    var csvSize: nat
    var expectedCrc: nat
    var hasClaim: bool
    var claim: Claim
    var upload: Claim
    var open: bool
    var completed: bool
    var result: Bytes
    const table: seq<Crc32.Word>

    ghost predicate Valid()
      reads this, framer, framer.buffer
    {
      framer.Valid() && Crc32.IsTable(table)
    }

    ghost function Abstract(): Client
      requires framer.size <= framer.buffer.Length
      reads this, framer, framer.buffer
    {
      Client(expecting, framer.Abstract(), csv, csvSize, expectedCrc, hasClaim, claim, upload, open, completed, result)
    }

    constructor (table: seq<Crc32.Word>)
      requires Crc32.IsTable(table)
      ensures Valid() && Abstract() == IDLE && fresh(framer) && fresh(framer.buffer)
    {
      framer := new Framer.Framer(AckType, AckType);
      expecting, csv, csvSize, expectedCrc := Nothing, [], 0, 0;
      hasClaim, claim, upload := false, NO_CLAIM, NO_CLAIM;
      open, completed, result := false, false, [];
      this.table := table;
    }

    method FailSession()
      requires Valid()
      modifies this
      ensures Valid() && Abstract() == Fail(old(Abstract()))
    {
      hide Crc32.IsTable;
      expecting, open := Nothing, false;
      if hasClaim {
        claim := claim.(received := |csv|);
      } else {
        csv := [];
      }
    }

    /** `sendOk` is what the socket says to the confirmation. */
    method CompleteDownload(sendOk: bool)
      requires Valid()
      modifies this
      ensures Valid() && Abstract() == FinishDownload(old(Abstract()), sendOk)
    {
      hide Crc32.IsTable, Crc32.Checksum, Crc32.U32;
      var actual := Crc32.Compute(table, Crc32.ZERO, csv);
      if Crc32.U32(actual) != expectedCrc {
        csv := [];
        if hasClaim {
          claim := claim.(received := 0);
        }
        FailSession();
        return;
      }
      result, csv, expecting := csv, [], Nothing;
      hasClaim, claim := false, NO_CLAIM;
      if !sendOk {
        FailSession();
        return;
      }
      completed := true;
    }

    method BeginCsvReceive(header: Message, resuming: bool, sendOk: bool) returns (ok: bool)
      requires Valid() && header.ResultHeader?
      modifies this
      ensures Valid()
      ensures Step(Abstract(), if ok then 1 else 0) ==
              BeginCsv(old(Abstract()), header.csvSize, header.crc32, resuming, 1, sendOk)
    {
      hide Crc32.IsTable, FinishDownload;
      if header.csvSize > MAX_CSV_SIZE {
        FailSession();
        return false;
      }
      if resuming && |csv| > header.csvSize {
        FailSession();
        return false;
      }
      csvSize, expectedCrc := header.csvSize, header.crc32;
      if !resuming {
        csv := [];
      }
      expecting := CsvExpected;
      if |csv| == csvSize {
        CompleteDownload(sendOk);
      }
      return true;
    }

    method HandleAckBytes(data: Bytes) returns (consumed: nat)
      requires Valid()
      modifies this, framer, framer.buffer
      ensures Valid() && Step(Abstract(), consumed) == HandleAck(old(Abstract()), data)
    {
      hide Crc32.IsTable, Framer.Reachable, Framer.Absorb, Decode;
      var status, n := framer.Feed(data);
      if status == NeedMoreData {
        return n;
      }
      if status != Done {
        FailSession();
        return 0;
      }
      var decoded := Decode(AckType, framer.buffer[..framer.size]);
      match decoded
      case Ok(Ack(AckOk, _)) =>
        hasClaim, claim := true, upload.(received := 0);
        expecting := HeaderExpected;
        framer.Reset(ResultHeaderType, ResultHeaderType);
        return n;
      case _ =>
        FailSession();
        return 0;
    }

    method HandleResultHeaderBytes(data: Bytes, sendOk: bool) returns (consumed: nat)
      requires Valid()
      modifies this, framer, framer.buffer
      ensures Valid() && Step(Abstract(), consumed) == HandleHeader(old(Abstract()), data, sendOk)
    {
      hide Crc32.IsTable, Framer.Reachable, Framer.Absorb, Decode, FinishDownload;
      var status, n := framer.Feed(data);
      if status == NeedMoreData {
        return n;
      }
      if status != Done {
        FailSession();
        return 0;
      }
      var decoded := Decode(ResultHeaderType, framer.buffer[..framer.size]);
      match decoded
      case Ok(ResultHeader(_, _)) =>
        var ok := BeginCsvReceive(decoded.message, false, sendOk);
        return if ok then n else 0;
      case _ =>
        FailSession();
        return 0;
    }

    method HandleCsvBytes(data: Bytes, sendOk: bool) returns (consumed: nat)
      requires Valid()
      modifies this
      ensures Valid() && Step(Abstract(), consumed) == HandleCsv(old(Abstract()), data, sendOk)
    {
      hide Crc32.IsTable, FinishDownload;
      var n := if csvSize <= |csv| then 0 else Min(csvSize - |csv|, |data|);
      csv := csv + data[..n];
      if hasClaim {
        claim := claim.(received := |csv|);
      }
      if |csv| == csvSize {
        CompleteDownload(sendOk);
      }
      return n;
    }

    method HandleResumeReplyBytes(data: Bytes, sendOk: bool) returns (consumed: nat)
      requires Valid()
      modifies this, framer, framer.buffer
      ensures Valid() && Step(Abstract(), consumed) == HandleReply(old(Abstract()), data, sendOk)
    {
      hide Crc32.IsTable, Framer.Reachable, Framer.Absorb, Decode, FinishDownload;
      var status, n := framer.Feed(data);
      if status == NeedMoreData {
        return n;
      }
      if status != Done {
        FailSession();
        return 0;
      }
      var message := framer.buffer[..framer.size];
      if |message| >= PREAMBLE_SIZE && ByteAt(message, 5) == TypeCode(AckType) {
        hasClaim, claim, csv := false, NO_CLAIM, [];
        FailSession();
        return 0;
      }
      var decoded := Decode(ResultHeaderType, message);
      match decoded
      case Ok(ResultHeader(_, _)) =>
        var ok := BeginCsvReceive(decoded.message, true, sendOk);
        return if ok then n else 0;
      case _ =>
        FailSession();
        return 0;
    }

    method HandleBytes(data: Bytes, sendOk: bool) returns (consumed: nat)
      requires Valid()
      modifies this, framer, framer.buffer
      ensures Valid() && consumed <= |data| && Step(Abstract(), consumed) == Handle(old(Abstract()), data, sendOk)
    {
      hide Crc32.IsTable, HandleAck, HandleHeader, HandleCsv, HandleReply, Fail;
      match expecting
      case AckExpected => consumed := HandleAckBytes(data);
      case HeaderExpected => consumed := HandleResultHeaderBytes(data, sendOk);
      case CsvExpected => consumed := HandleCsvBytes(data, sendOk);
      case ReplyExpected => consumed := HandleResumeReplyBytes(data, sendOk);
      case Nothing =>
        FailSession();
        consumed := 0;
    }

    /** TransferService.cpp:471-500. */
    method OnRead(bytes: Bytes, sendOk: bool)
      requires Valid()
      modifies this, framer, framer.buffer
      ensures Valid() && Abstract() == OnBytes(old(Abstract()), bytes, sendOk)
    {
      hide Crc32.IsTable, Handle;
      var data := bytes;
      while data != []
        invariant Valid() && OnBytes(old(Abstract()), bytes, sendOk) == OnBytes(Abstract(), data, sendOk)
        decreases |data|
      {
        var consumed := HandleBytes(data, sendOk);
        if consumed == 0 {
          return;
        }
        data := data[consumed..];
      }
    }
  }
}
