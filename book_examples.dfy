/** Concrete MIME types and URLs run through the book controller's string helpers. */
module BookExamples {
  import opened JsStrings
  import opened Books

  lemma MimeSubtypeExamples()
    ensures MimeSubtype("image" + "/" + "png") == "png"
    ensures MimeSubtype("application" + "/" + "pdf") == "pdf"
  {
    MimeSubtypeOf("image", "png");
    MimeSubtypeOf("application", "pdf");
  }

  /**
   The cover URL in the source's comment above the derivation, behind any host
   and version path, gives the id named there.
   */
  lemma CoverPublicIdExample(host: string)
    ensures CoverPublicId(host + "/" + "book-covers" + "/" + ([] + "u4bt9x7sv0r0cg5cuynm" + "." + "png"))
            == "book-covers" + "/" + "u4bt9x7sv0r0cg5cuynm"
  {
    CoverPublicIdOfUrl(host, "book-covers", [], "u4bt9x7sv0r0cg5cuynm", "png");
  }

  /** A document URL of the same shape: the id keeps the ".pdf". */
  lemma DocumentPublicIdExample(host: string)
    ensures DocumentPublicId(host + "/" + "book-pdfs" + "/" + "qx1ak2nd9ie0lrmm3b7c.pdf")
            == "book-pdfs" + "/" + "qx1ak2nd9ie0lrmm3b7c.pdf"
  {
    DocumentPublicIdOfUrl(host, "book-pdfs", "qx1ak2nd9ie0lrmm3b7c.pdf");
  }

  /** A cover named with two dots keeps only the piece before the last dot. */
  lemma CoverPublicIdTwoDots(host: string)
    ensures CoverPublicId(host + "/" + "book-covers" + "/" + ("cover." + "front" + "." + "png"))
            == "book-covers" + "/" + "front"
  {
    CoverPublicIdOfUrl(host, "book-covers", "cover.", "front", "png");
  }
}
