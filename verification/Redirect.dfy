/** The redirect decision: which 3xx is followed, and what happens to method, body and
    credentials. */
module Redirect {
  import opened Ascii
  import opened Uri

  datatype Decision =
    | NotRedirect
    | TooMany
    | Downgrade
    | Follow(toGet: bool, dropBody: bool, rewind: bool, strip: bool)

  predicate IsRedirect(status: int)
  {
    status == 301 || status == 302 || status == 303 || status == 307 || status == 308
  }

  function Decide(maxRedirects: nat, allowDowngrade: bool, status: int, method_: string,
                  from: RawUri, to: RawUri, hops: nat): Decision
  {
    if !IsRedirect(status) then NotRedirect
    else if maxRedirects > 0 && hops >= maxRedirects then TooMany
    else if !allowDowngrade && from.https && !to.https then Downgrade
    else
      var post := CaseEq(method_, "POST");
      var head := CaseEq(method_, "HEAD");
      var moved := status == 301 || status == 302;
      Follow((moved && post) || (status == 303 && !head),
             (moved && post) || status == 303,
             status == 307 || status == 308,
             !SameOrigin(from, to))
  }

  /** The normative table, read back from the decision: 303 always drops the body and 307/308
      never do; a method is rewritten only together with its body; credentials stay exactly on
      the same origin; and HTTPS never leads to HTTP by default. */
  lemma DecisionTable(maxRedirects: nat, status: int, m: string, from: RawUri, to: RawUri, hops: nat)
    ensures var d := Decide(maxRedirects, false, status, m, from, to, hops);
            && (d.NotRedirect? <==> !IsRedirect(status))
            && (d.Downgrade? ==> from.https && !to.https) && (d.TooMany? ==> hops >= maxRedirects > 0)
            && (d.Follow? ==>
                  && (d.toGet ==> d.dropBody) && (d.rewind ==> !d.dropBody)
                  && (status == 301 || status == 302 ==>
                        (d.toGet <==> CaseEq(m, "POST")) && (d.dropBody <==> CaseEq(m, "POST")))
                  && (status == 303 ==> d.dropBody && (d.toGet <==> !CaseEq(m, "HEAD")))
                  && (d.rewind <==> status == 307 || status == 308)
                  && (d.strip <==> !SameOrigin(from, to))
                  && (from.https ==> to.https)
                  && (maxRedirects > 0 ==> hops < maxRedirects))
  {
  }
}
