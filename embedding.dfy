/**
 * The dual encoder, as an opaque capability: one function from text to a
 * vector and one from an image file (named by its path) to a vector. The
 * batch forms are the singular forms applied to each input in order.
 */
module Embedding {

  /** An embedding; its components are never inspected here. */
  type Vector = seq<real>

  datatype Embedder = Embedder(text: string -> Vector, image: string -> Vector) {

    /** `get_text_embedding_batch`: one vector per input, in input order. */
    function TextBatch(texts: seq<string>): (vs: seq<Vector>)
      ensures |vs| == |texts|
      ensures forall j :: 0 <= j < |texts| ==> vs[j] == text(texts[j])
    {
      seq(|texts|, j requires 0 <= j < |texts| => text(texts[j]))
    }

    /** `get_image_embedding_batch`: one vector per input, in input order. */
    function ImageBatch(paths: seq<string>): (vs: seq<Vector>)
      ensures |vs| == |paths|
      ensures forall j :: 0 <= j < |paths| ==> vs[j] == image(paths[j])
    {
      seq(|paths|, j requires 0 <= j < |paths| => image(paths[j]))
    }

    /** `get_query_embedding`: a query is embedded as any other text, as a batch of one would be. */
    function QueryEmbedding(query: string): (v: Vector)
      ensures v == TextBatch([query])[0]
    {
      text(query)
    }
  }
}
