/** The transition function of the URL states, shared by the request parser and the URL splitter. */
module HttpUrlChar {
  import opened HttpTypes

  function ParseUrlChar(s: State, ch: Byte): State {
    if ch == ' ' || ch == CR || ch == LF || ch == TAB || ch == FF then Dead
    else
      match s
      case SpacesBeforeUrl =>
        if ch == '/' || ch == '*' then UrlPath else if IsAlpha(ch) then Schema else Dead
      case Schema =>
        if IsAlpha(ch) then Schema else if ch == ':' then SchemaSlash else Dead
      case SchemaSlash => if ch == '/' then SchemaSlashSlash else Dead
      case SchemaSlashSlash => if ch == '/' then ServerStart else Dead
      case ServerWithAt => if ch == '@' then Dead else ServerChar(ch)
      case ServerStart => ServerChar(ch)
      case Server => ServerChar(ch)
      case UrlPath =>
        if IsUrlChar(ch) then UrlPath else if ch == '?' then QueryStart else if ch == '#' then FragmentStart else Dead
      case QueryStart => QueryChar(ch)
      case Query => QueryChar(ch)
      case FragmentStart =>
        if IsUrlChar(ch) || ch == '?' then Fragment else if ch == '#' then FragmentStart else Dead
      case Fragment =>
        if IsUrlChar(ch) || ch == '?' || ch == '#' then Fragment else Dead
      case _ => Dead
  }

  function ServerChar(ch: Byte): State {
    if ch == '/' then UrlPath
    else if ch == '?' then QueryStart
    else if ch == '@' then ServerWithAt
    else if IsUserInfoChar(ch) || ch == '[' || ch == ']' then Server
    else Dead
  }

  function QueryChar(ch: Byte): State {
    if IsUrlChar(ch) || ch == '?' then Query else if ch == '#' then FragmentStart else Dead
  }

  /** A URL state leads to a URL state or to an error. */
  lemma UrlStatesClosed(s: State, ch: Byte)
    requires InUrl(s) || s.SpacesBeforeUrl?
    ensures InUrl(ParseUrlChar(s, ch)) || ParseUrlChar(s, ch).Dead?
  {
  }
}
