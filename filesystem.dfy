/**
 * The filesystem as the program sees it through `os.Stat`: a path either fails
 * to stat or yields its file information. Modification times are local-time
 * fields, rendered with the layout "2006-01-02 15:04:05".
 */
module FileSystem {
  import opened Wrappers
  import opened Text
  import opened Paths

  datatype Timestamp = Timestamp(year: nat, month: nat, day: nat, hour: nat, minute: nat, second: nat)

  datatype FileInfo = FileInfo(regular: bool, mtime: Timestamp, size: nat)

  /** The `os.Stat` oracle: None when the call returns an error. */
  type Stat = Path -> Option<FileInfo>

  /** The date half of the layout, "2006-01-02": one field. */
  function DateText(t: Timestamp): (s: string)
    ensures IsWord(s)
  {
    var y, m, d := Pad(t.year, 4), Pad(t.month, 2), Pad(t.day, 2);
    NoSpaceConcat(y, "-");
    NoSpaceConcat(y + "-", m);
    NoSpaceConcat(y + "-" + m, "-");
    NoSpaceConcat(y + "-" + m + "-", d);
    y + "-" + m + "-" + d
  }

  /** The time-of-day half of the layout, "15:04:05": one field. */
  function ClockText(t: Timestamp): (s: string)
    ensures IsWord(s)
  {
    var h, m, c := Pad(t.hour, 2), Pad(t.minute, 2), Pad(t.second, 2);
    NoSpaceConcat(h, ":");
    NoSpaceConcat(h + ":", m);
    NoSpaceConcat(h + ":" + m, ":");
    NoSpaceConcat(h + ":" + m + ":", c);
    h + ":" + m + ":" + c
  }
}
