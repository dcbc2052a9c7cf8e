/** A record read from a file (`RecordData`): the record number in hexadecimal and a copy of
    its content. As a value it cannot change after construction, and it shares nothing with the
    array it was built from. */
module Records {
  import opened JavaText

  datatype RecordData = RecordData(index: string, value: seq<JByte>)

  /** The constructor: `index` is `HexUtil.toHex(int)` of the record number and `value` a copy
      of the array's elements at the time of the call. */
  method NewRecordData(recordIndex: JInt, recordData: array<JByte>) returns (r: RecordData)
    ensures r.index == ToHexInt(recordIndex)
    ensures |r.value| == recordData.Length
    ensures forall i :: 0 <= i < recordData.Length ==> r.value[i] == recordData[i]
  {
    r := RecordData(ToHexInt(recordIndex), recordData[..]);
  }

  /** The record of number `n` built from the bytes the card returned, as both analyzers do
      it: `new RecordData(n, bytes)` over a fresh array holding those bytes. */
  method MakeRecord(n: JInt, content: seq<JByte>) returns (r: RecordData)
    ensures r == RecordData(ToHexInt(n), content)
  {
    var bytes := new JByte[|content|](k requires 0 <= k < |content| => content[k]);
    r := NewRecordData(n, bytes);
  }
}
