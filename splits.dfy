/** The values that flow through the vertex manager: Hive splits, Tez
    grouped splits, the root-input events that carry them, and the data
    events the manager emits. */
module Splits {
  import opened Common
  import opened Bytes

  /** A HiveInputSplit as the vertex manager sees it: the bytes its
      getBytesForEquality() returns and its optional bucket id. */
  datatype HiveSplit = HiveSplit(bytes: seq<byte>, bucketId: Option<int>)

  /** An org.apache.hadoop.mapred.InputSplit after classification: a Hive
      split, or a TezGroupedSplit whose getGroupedSplits() are its members. */
  datatype InputSplit = Hive(split: HiveSplit) | Grouped(members: seq<InputSplit>)

  /** What deserialising the payload of a data event yields. */
  datatype RawSplit = HiveInputSplit(split: HiveSplit) | OtherSplit

  /** The root-input events handed to onRootVertexInitialized. */
  datatype Event =
    | ConfigureVertexTasks(numTasks: int)   // InputConfigureVertexTasksEvent
    | UpdatePayload                         // InputUpdatePayloadEvent
    | DataInformation(raw: RawSplit)        // InputDataInformationEvent

  /** MRInputHelpers.createSplitProto: serialisation of a split, modelled as
      an injective wrapper. */
  datatype SerializedSplit = SerializedSplit(split: InputSplit)

  /** InputDataInformationEvent.createWithSerializedPayload(sourceIndex, payload)
      followed by setTargetIndex(targetIndex). */
  datatype DataEvent = DataEvent(sourceIndex: int, payload: SerializedSplit, targetIndex: int)

  /** HiveInputSplitComparator.compare: unsigned lexicographic order of the
      splits' equality bytes. */
  function CompareSplits(a: HiveSplit, b: HiveSplit): (c: int)
    ensures c == 0 <==> a.bytes == b.bytes
    ensures c == -LexCompare(b.bytes, a.bytes)
  {
    LexCompareZeroIffEqual(a.bytes, b.bytes);
    LexCompareAntisymmetric(a.bytes, b.bytes);
    LexCompare(a.bytes, b.bytes)
  }

  /** The key a split is filed under: its bucket id, or -1 when it has none
      (`getBucketId().orElse(-1)`). */
  function BucketKey(s: HiveSplit): int
  {
    match s.bucketId
    case Some(b) => b
    case None => -1
  }
}
