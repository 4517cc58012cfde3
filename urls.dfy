/**
 * The part of Go's `net/url.URL` record that the matchers can see.
 * Parsing is not modelled: a URL is simply the already-parsed record.
 */
module Urls {

  /** A parsed URL. The matchers only ever read `host` and `path`;
      the other components are here so that lemmas can say they are ignored. */
  datatype Url = Url(scheme: string, host: string, path: string, query: string, fragment: string)
}
