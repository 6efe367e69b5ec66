/**
 * Both programs read the same manifest with different header handling: the
 * converter maps each name to its last column, the batch generator takes the
 * first "post_id" column. This module relates the two readings.
 */
module ManifestAgreement {
  import opened Wrappers
  import opened Csv
  import Substack2Hugo
  import GenerateBatch

  /**
   * When "post_id" names a single column and the converter accepts the
   * manifest, the batch generator reads the same ids, row for row, so every
   * request's `custom_id` is a post the converter will look up.
   */
  lemma SameIdsFromSameManifest(file: Option<seq<ReadResult>>)
    requires Substack2Hugo.Manifest(file).Success?
    requires FirstIndex(file.value[0].fields, "post_id") == LastIndex(file.value[0].fields, "post_id")
    ensures GenerateBatch.Manifest(file).Success?
    ensures |GenerateBatch.Manifest(file).value| == |Substack2Hugo.Manifest(file).value|
    ensures forall i :: 0 <= i < |Substack2Hugo.Manifest(file).value| ==>
              GenerateBatch.Manifest(file).value[i].postId == Substack2Hugo.Manifest(file).value[i].postId
  {
    var headers := file.value[0].fields;
    assert "post_id" == Substack2Hugo.RequiredFields[0];
    assert "post_id" in headers;
  }

  /** A manifest without a "post_id" column stops both programs, and the converter names that column. */
  lemma BothRejectMissingPostId(file: Option<seq<ReadResult>>)
    requires GenerateBatch.Manifest(file) == Failure(GenerateBatch.PostIdColumnMissing)
    ensures Substack2Hugo.Manifest(file) == Failure(Substack2Hugo.MissingField("post_id"))
  {
    var headers := file.value[0].fields;
    Substack2Hugo.FirstMissingIs(Substack2Hugo.RequiredFields, headers, 0);
  }
}
