/** The values of the intermediate logs: marshalled series. */
module DayLogs {
  import opened Wrappers
  import opened Bytes
  import opened Labels
  import opened Chunks
  import opened LogFormat
  import opened LogRecords
  import opened LogRecovery
  import opened Pass1

  /** What the values decode to. */
  datatype TimeSeries = TimeSeries(labels: LabelSet, samples: seq<Sample>)

  type Decoder = Str -> Option<TimeSeries>

  function Unmarshals(decode: Decoder): Str -> bool {
    v => decode(v).Some?
  }

  /** What a value stands for: an empty one is no series, and the codec is not asked. */
  function Decoded(decode: Decoder, value: Str): Option<TimeSeries> {
    if value == [] then Some(TimeSeries([], [])) else decode(value)
  }

  ghost predicate IsCodec(encode: TimeSeries -> Str, decode: Decoder) {
    forall ts :: Decoded(decode, encode(ts)) == Some(ts)
  }

  function ValueOf(e: LogEntry): TimeSeries {
    TimeSeries(e.labels, e.samples)
  }

  function RecordOf(e: LogEntry, encode: TimeSeries -> Str): Record {
    Record(e.name, encode(ValueOf(e)))
  }

  function RecordsOf(log: seq<LogEntry>, encode: TimeSeries -> Str): (rs: seq<Record>)
    ensures |rs| == |log|
  {
    seq(|log|, i requires 0 <= i < |log| => RecordOf(log[i], encode))
  }

  lemma EncodedIsLegible(log: seq<LogEntry>, encode: TimeSeries -> Str, decode: Decoder)
    requires IsCodec(encode, decode)
    ensures AllLegible(RecordsOf(log, encode), Unmarshals(decode))
  {
    forall i | 0 <= i < |log| ensures Legible(RecordsOf(log, encode)[i], Unmarshals(decode)) {
      assert Decoded(decode, encode(ValueOf(log[i]))) == Some(ValueOf(log[i]));
    }
  }
}
