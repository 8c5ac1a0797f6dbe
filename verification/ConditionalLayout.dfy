/** The site-wide layout (src/components/ConditionalLayout.tsx): the public
    header and footer are left out on the application's own sections,
    chosen by path prefix; the page content is always rendered. */
module ConditionalLayout {
  import Text
  import Middleware

  const NoHeaderPrefixes: seq<string> := ["/dashboard", "/registrar", "/history"]

  datatype Part = Header | MainContent | Footer

  /** `showHeader`: no listed prefix starts the pathname. */
  predicate ShowHeader(pathname: string)
  {
    !exists i :: 0 <= i < |NoHeaderPrefixes| && Text.StartsWith(pathname, NoHeaderPrefixes[i])
  }

  /** The parts rendered for a pathname, top to bottom. */
  function Layout(pathname: string): (parts: seq<Part>)
    ensures MainContent in parts
    ensures Header in parts <==> ShowHeader(pathname)
    ensures Footer in parts <==> ShowHeader(pathname)
    ensures ShowHeader(pathname) ==> parts == [Header, MainContent, Footer]
  {
    if ShowHeader(pathname) then [Header, MainContent, Footer] else [MainContent]
  }

  /** Prefix matching: the root shows the header, "/historyX" hides it. */
  lemma LayoutExamples()
    ensures ShowHeader("/")
    ensures !ShowHeader("/historyX")
  {
    assert !Text.StartsWith("/", NoHeaderPrefixes[0]);
    assert !Text.StartsWith("/", NoHeaderPrefixes[1]);
    assert !Text.StartsWith("/", NoHeaderPrefixes[2]);
    assert Text.StartsWith("/historyX", NoHeaderPrefixes[2]);
  }

  /** Every path the middleware protects is rendered without the public
      header and footer. */
  lemma ProtectedPathsHideHeader(pathname: string)
    requires Middleware.IsProtected(pathname)
    ensures !ShowHeader(pathname)
  {
    var i :| 0 <= i < |Middleware.ProtectedPrefixes| && Text.StartsWith(pathname, Middleware.ProtectedPrefixes[i]);
    assert NoHeaderPrefixes[i] == Middleware.ProtectedPrefixes[i];
  }
}
