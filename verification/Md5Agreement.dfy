/** The two MD5 implementations compute one function, however the message is chopped. */
module Md5Agreement {
  import opened Bytes
  import opened Md5Spec
  import OsipMd5
  import MongooseMd5

  /** A whole streaming run of the toolkit's code over the given chunks. */
  method OsipDigest(chunks: seq<seq<u8>>) returns (digest: seq<u8>)
    requires forall c :: c in chunks ==> |c| <= 0xffff_ffc0
    ensures digest == Md5(Concat(chunks))
  {
    hide Compress, Represents, Md5;
    var context := new OsipMd5.Context.Init();
    var i := 0;
    assert chunks[..0] == [];
    while i < |chunks|
      invariant 0 <= i <= |chunks| && fresh(context) && fresh(context.buffer)
      invariant Represents(context.state, context.count0, context.count1, context.buffer[..], Concat(chunks[..i]))
    {
      context.Update(chunks[i], Concat(chunks[..i]));
      assert chunks[..i + 1] == chunks[..i] + [chunks[i]];
      ConcatSnoc(chunks[..i], chunks[i]);
      i := i + 1;
    }
    assert chunks[..i] == chunks;
    digest := context.Final(Concat(chunks));
  }

  /** Different code, different chunks, either byte order of the host: the same digest. */
  method SameDigest(bigEndian: bool, ours: seq<seq<u8>>, theirs: seq<seq<u8>>) returns (a: seq<u8>, b: seq<u8>)
    requires Concat(ours) == Concat(theirs)
    requires forall c :: c in ours ==> |c| <= 0xffff_ffc0
    requires forall c :: c in theirs ==> |c| < 0x1_0000_0000
    ensures b == Hex(a) + [0] && a == Md5(Concat(theirs))
  {
    hide Md5, Hex;
    a := OsipDigest(ours);
    b := MongooseMd5.MgMd5(bigEndian, theirs);
  }
}
