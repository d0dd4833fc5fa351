/**
 * The MAGDAS binary readers for minute (`.mag`/`.mgd`) and second files.  A
 * file is a text header ended by the byte 0x1A and one more byte, followed by
 * little-endian IEEE-754 single-precision values that `np.fromfile` decodes.
 */
module RawDataReader {
  import opened Wrappers
  import opened Samples

  const SUB: bv8 := 0x1A
  const ONE_DAY_MIN: int := 1440
  const ONE_DAY_SEC: int := 86400
  const FOUR_COMPONENTS: int := 4
  const SEVEN_COMPONENTS: int := 7
  const EIGHT_COMPONENTS: int := 8

  /** A file opened in binary mode, with its read position. */
  class BinaryFile {
    const contents: seq<bv8>
    var pos: nat

    predicate Valid()
      reads this
    {
      pos <= |contents|
    }

    constructor Open(contents: seq<bv8>)
      ensures Valid() && this.contents == contents && pos == 0
    {
      this.contents := contents;
      pos := 0;
    }

    /** `file.read(n)`: up to `n` bytes, fewer (or none) at the end of the file. */
    method Read(n: nat) returns (chunk: seq<bv8>)
      requires Valid()
      modifies this
      ensures Valid()
      ensures pos == if old(pos) + n <= |contents| then old(pos) + n else |contents|
      ensures chunk == contents[old(pos)..pos]
    {
      var stop := if pos + n <= |contents| then pos + n else |contents|;
      chunk := contents[pos..stop];
      pos := stop;
    }
  }

  /** Position of the first 0x1A byte. */
  function SubIndex(bytes: seq<bv8>): (k: nat)
    requires SUB in bytes
    ensures k < |bytes| && bytes[k] == SUB && SUB !in bytes[..k]
    ensures forall i :: 0 <= i < k ==> bytes[i] != SUB
  {
    if bytes[0] == SUB then 0
    else
      assert SUB in bytes[1..];
      var k := SubIndex(bytes[1..]);
      assert bytes[..k + 1] == [bytes[0]] + bytes[1..][..k];
      k + 1
  }

  /** The header runs through the first 0x1A and the byte after it, if there is one. */
  function HeaderLength(bytes: seq<bv8>): nat
    requires SUB in bytes
  {
    var k := SubIndex(bytes);
    if k + 2 <= |bytes| then k + 2 else |bytes|
  }

  function Payload(bytes: seq<bv8>): seq<bv8>
    requires SUB in bytes
  {
    bytes[HeaderLength(bytes)..]
  }

  /** A header without 0x1A, the delimiter and any one byte are all skipped, whatever that byte is. */
  lemma {:induction false} HeaderSkipped(header: seq<bv8>, x: bv8, payload: seq<bv8>)
    requires SUB !in header
    ensures SUB in header + [SUB, x] + payload
    ensures Payload(header + [SUB, x] + payload) == payload
    ensures Payload(header + [SUB]) == []
  {
    var b := header + [SUB, x] + payload;
    assert b[|header|] == SUB;
    SubIndexOf(header, [SUB, x] + payload);
    assert header + [SUB, x] + payload == header + ([SUB, x] + payload);
    SubIndexOf(header, [SUB]);
  }

  lemma {:induction false} SubIndexOf(header: seq<bv8>, rest: seq<bv8>)
    requires SUB !in header && |rest| > 0 && rest[0] == SUB
    ensures SUB in header + rest && SubIndex(header + rest) == |header|
  {
    var b := header + rest;
    assert b[|header|] == SUB;
    if header != [] {
      assert b[1..] == header[1..] + rest;
      SubIndexOf(header[1..], rest);
    }
  }

  function Pow2(e: int): (r: real)
    ensures r > 0.0
    decreases if e < 0 then -e else e
  {
    if e == 0 then 1.0 else if e > 0 then 2.0 * Pow2(e - 1) else Pow2(e + 1) / 2.0
  }

  /** One little-endian IEEE-754 binary32 value. */
  function DecodeFloat32(b0: bv8, b1: bv8, b2: bv8, b3: bv8): Float {
    var bits := (b3 as int) * 16777216 + (b2 as int) * 65536 + (b1 as int) * 256 + b0 as int;
    var negative := bits >= 0x8000_0000;
    var exponent := bits / 0x80_0000 % 256;
    var fraction := bits % 0x80_0000;
    if exponent == 255 then
      (if fraction != 0 then NaN else if negative then NegInf else PosInf)
    else
      var magnitude :=
        if exponent == 0 then fraction as real * Pow2(-149)
        else (fraction + 0x80_0000) as real * Pow2(exponent - 150);
      Finite(if negative then -magnitude else magnitude)
  }

  /** `np.fromfile(file, np.float32)`: as many whole four-byte values as the rest of the file holds. */
  function Float32s(bytes: seq<bv8>): (r: seq<Float>)
    ensures |r| == |bytes| / 4
    ensures forall i :: 0 <= i < |r| ==> r[i] == DecodeFloat32(bytes[4 * i], bytes[4 * i + 1], bytes[4 * i + 2], bytes[4 * i + 3])
  {
    seq(|bytes| / 4, i requires 0 <= i < |bytes| / 4 =>
      DecodeFloat32(bytes[4 * i], bytes[4 * i + 1], bytes[4 * i + 2], bytes[4 * i + 3]))
  }

  lemma RowFits(i: int, rows: int, cols: int)
    requires 0 <= i < rows && cols >= 0
    ensures 0 <= i * cols && i * cols + cols <= rows * cols
  {
    assert (i + 1) * cols <= rows * cols by {
      assert rows * cols - (i + 1) * cols == (rows - i - 1) * cols;
    }
  }

  function Row(values: seq<Float>, rows: nat, cols: nat, i: int): (r: seq<Float>)
    requires |values| == rows * cols && 0 <= i < rows
    ensures |r| == cols
  {
    RowFits(i, rows, cols);
    values[i * cols..i * cols + cols]
  }

  /** `data.reshape((rows, cols))`, row-major. */
  function Reshape(values: seq<Float>, rows: nat, cols: nat): (r: seq<seq<Float>>)
    requires |values| == rows * cols
    ensures |r| == rows
    ensures forall i :: 0 <= i < rows ==> |r[i]| == cols
  {
    seq(rows, i requires 0 <= i < rows => Row(values, rows, cols, i))
  }

  lemma ReshapeCell(values: seq<Float>, rows: nat, cols: nat, i: int, j: int)
    requires |values| == rows * cols && 0 <= i < rows && 0 <= j < cols
    ensures 0 <= i * cols + j < |values|
    ensures Reshape(values, rows, cols)[i][j] == values[i * cols + j]
  {
    RowFits(i, rows, cols);
  }

  /** `read_raw_min_data`: 1440 rows of seven or eight components, anything else is a `ValueError`. */
  function ReadRawMin(bytes: seq<bv8>): (r: Result<seq<seq<Float>>, string>)
    requires SUB in bytes
    ensures r.Success? <==>
      |Payload(bytes)| / 4 == ONE_DAY_MIN * SEVEN_COMPONENTS || |Payload(bytes)| / 4 == ONE_DAY_MIN * EIGHT_COMPONENTS
    ensures r.Success? ==> |r.value| == ONE_DAY_MIN
    ensures r.Success? ==> forall i :: 0 <= i < ONE_DAY_MIN ==> |r.value[i]| == |Payload(bytes)| / 4 / ONE_DAY_MIN
  {
    var data := Float32s(Payload(bytes));
    if |data| == ONE_DAY_MIN * SEVEN_COMPONENTS then Success(Reshape(data, ONE_DAY_MIN, SEVEN_COMPONENTS))
    else if |data| == ONE_DAY_MIN * EIGHT_COMPONENTS then Success(Reshape(data, ONE_DAY_MIN, EIGHT_COMPONENTS))
    else Failure("There are missing data!")
  }

  /** Cell (i, j) of a decoded minute file is the value at row-major position i * k + j of the payload. */
  lemma ReadRawMinCell(bytes: seq<bv8>, i: int, j: int)
    requires SUB in bytes && ReadRawMin(bytes).Success?
    requires 0 <= i < ONE_DAY_MIN && 0 <= j < |Payload(bytes)| / 4 / ONE_DAY_MIN
    ensures var k := |Payload(bytes)| / 4 / ONE_DAY_MIN;
      0 <= i * k + j < |Float32s(Payload(bytes))| &&
      ReadRawMin(bytes).value[i][j] == Float32s(Payload(bytes))[i * k + j]
  {
    var data := Float32s(Payload(bytes));
    if |data| == ONE_DAY_MIN * SEVEN_COMPONENTS {
      ReshapeCell(data, ONE_DAY_MIN, SEVEN_COMPONENTS, i, j);
    } else {
      ReshapeCell(data, ONE_DAY_MIN, EIGHT_COMPONENTS, i, j);
    }
  }

  /** `read_raw_sec_data`: exactly 86400 rows of four components, else a `ValueError`. */
  function ReadRawSec(bytes: seq<bv8>): (r: Result<seq<seq<Float>>, string>)
    requires SUB in bytes
    ensures r.Success? <==> |Payload(bytes)| / 4 == ONE_DAY_SEC * FOUR_COMPONENTS
    ensures r.Success? ==> |r.value| == ONE_DAY_SEC && forall i :: 0 <= i < ONE_DAY_SEC ==> |r.value[i]| == FOUR_COMPONENTS
  {
    var data := Float32s(Payload(bytes));
    if |data| == ONE_DAY_SEC * FOUR_COMPONENTS then Success(Reshape(data, ONE_DAY_SEC, FOUR_COMPONENTS))
    else Failure("There are missing data!")
  }

  /** The header loop: read one byte at a time until 0x1A, then read one more. */
  method SkipHeader(file: BinaryFile)
    requires file.Valid() && file.pos == 0 && SUB in file.contents
    modifies file
    ensures file.Valid() && file.pos == HeaderLength(file.contents)
  {
    ghost var k := SubIndex(file.contents);
    assert SUB !in file.contents[..k];
    while true
      invariant file.Valid() && file.pos <= k
      invariant SUB !in file.contents[..file.pos]
      decreases k - file.pos
    {
      ghost var at := file.pos;
      var buf := file.Read(1);
      if buf == [SUB] {
        assert file.pos == at + 1 && file.contents[at] == SUB;
        assert at == k;
        buf := file.Read(1);
        return;
      }
      assert file.contents[..file.pos] == file.contents[..file.pos - 1] + buf;
    }
  }

  method ReadRawMinData(contents: seq<bv8>) returns (r: Result<seq<seq<Float>>, string>)
    requires SUB in contents
    ensures r == ReadRawMin(contents)
  {
    var file := new BinaryFile.Open(contents);
    SkipHeader(file);
    var rest := file.Read(|contents|);
    assert rest == Payload(contents);
    var data := Float32s(rest);
    if |data| == ONE_DAY_MIN * SEVEN_COMPONENTS {
      r := Success(Reshape(data, ONE_DAY_MIN, SEVEN_COMPONENTS));
    } else if |data| == ONE_DAY_MIN * EIGHT_COMPONENTS {
      r := Success(Reshape(data, ONE_DAY_MIN, EIGHT_COMPONENTS));
    } else {
      r := Failure("There are missing data!");
    }
  }

  method ReadRawSecData(contents: seq<bv8>) returns (r: Result<seq<seq<Float>>, string>)
    requires SUB in contents
    ensures r == ReadRawSec(contents)
  {
    var file := new BinaryFile.Open(contents);
    SkipHeader(file);
    var rest := file.Read(|contents|);
    assert rest == Payload(contents);
    var data := Float32s(rest);
    if |data| == ONE_DAY_SEC * FOUR_COMPONENTS {
      r := Success(Reshape(data, ONE_DAY_SEC, FOUR_COMPONENTS));
    } else {
      r := Failure("There are missing data!");
    }
  }
}
