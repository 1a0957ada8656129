/** The electronic tag on the end of a cord, as the order programs keep and compare it. */
module Tags {
  import opened Register

  const TAG_SIZE := 32

  type Tag = t: seq<byte> | |t| == TAG_SIZE
    witness [0, 0, 0, 0, 0, 0, 0, 0, 0, 0, 0, 0, 0, 0, 0, 0, 0, 0, 0, 0, 0, 0, 0, 0, 0, 0, 0, 0, 0, 0, 0, 0]

  const NO_TAG: Tag :=
    [0, 0, 0, 0, 0, 0, 0, 0, 0, 0, 0, 0, 0, 0, 0, 0, 0, 0, 0, 0, 0, 0, 0, 0, 0, 0, 0, 0, 0, 0, 0, 0]

  /** The bytes of a tag that are compared. */
  function Field(t: Tag): (f: seq<byte>)
    ensures |f| == 16
  {
    t[5..21]
  }

  /** Two tags agree exactly when their bytes 5 to 20 do. */
  lemma FieldExactly(t: Tag, u: Tag)
    ensures Field(t) == Field(u) <==> forall i :: 5 <= i < 21 ==> t[i] == u[i]
  {
    if Field(t) == Field(u) {
      forall i | 5 <= i < 21
        ensures t[i] == u[i]
      {
        assert t[i] == Field(t)[i - 5] == Field(u)[i - 5];
      }
    }
  }

  const NO_FIELD: seq<byte> := Field(NO_TAG)
}
