/** A gzip member spelled out: the stream with the fixed codes, in a file with the name "i". */
module GzipExample {
  import opened Bits
  import opened Deflate
  import opened DeflateExamples
  import opened Gzip

  ghost predicate IsMember(d: seq<Byte>) {
    && |d| == 24 && d[0] == 31 && d[1] == 139 && d[2] == 8 && d[3] == 8 && d[10] == 105 && d[11] == 0
    && d[12] == 75 && d[13] == 68 && d[14] == 6 && d[15] == 0
    && d[20] == 13 && d[21] == 0 && d[22] == 0 && d[23] == 0
  }

  lemma NameIsSkipped(d: seq<Byte>, eight: nat)
    requires IsMember(d) && eight == 8
    ensures HeaderEnd(d) == 12
  {
    assert BitOf(eight, 0) == 0 && BitOf(eight, 1) == 0 && BitOf(eight, 2) == 0;
    assert BitOf(eight, 3) == BitOf(4, 2) == BitOf(2, 1) == BitOf(1, 0) == 1;
    assert BitOf(eight, 4) == BitOf(4, 3) == BitOf(2, 2) == BitOf(1, 1) == BitOf(0, 0) == 0;
    assert SkipZeros(d, 11, 1) == SkipZeros(d, 12, 0);
  }

  lemma MemberIsUnpacked(d: seq<Byte>)
    requires IsMember(d)
    ensures Gunzipped(d) == Bytes(ExampleText())
  {
    NameIsSkipped(d, 8);
    var dat := Body(d, 12);
    assert dat == [75, 68, 6, 0];
    FixedStreamInflates(dat);
    assert LastSize(d) == 13;
  }
}
