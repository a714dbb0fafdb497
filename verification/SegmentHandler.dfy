/** The owner of the named-segment callbacks: it opens a segment parser on
    `begin`, feeds it each token, and stores its result on `end`. */
module SegmentHandler {
  import opened Tokens
  import opened Verdicts
  import opened Errors
  import opened Canonical
  import PagesSegment
  import OverlaySegment
  import EncryptSegment

  datatype Active =
    | NoActive
    | PagesActive(pages: PagesSegment.PagesState)
    | OverlayActive(overlay: OverlaySegment.OverlayState)
    | EncryptActive(encrypt: EncryptSegment.EncryptState)
    | OtherActive

  /** A callback, recorded when it is made. */
  datatype Event = BeginEvent(kind: SegmentKind) | TokenEvent(kind: SegmentKind) | EndEvent(kind: SegmentKind)

  datatype HandlerState = HandlerState(
    active: Active,
    pagesSeen: bool,
    pageSpecs: Option<seq<PagesSegment.PageSpec>>,
    overlaySpecs: seq<OverlaySegment.OverlaySpec>,
    encryptSegments: seq<EncryptSegment.ParsedEncrypt>,
    events: seq<Event>)
  {
    predicate Valid() {
      active.PagesActive? ==> active.pages.Valid()
    }

    function Emit(e: Event): HandlerState {
      this.(events := events + [e])
    }
  }

  const HANDLER_START := HandlerState(NoActive, false, None, [], [], [])

  function Open(kind: SegmentKind, option: Token): Active {
    match kind
    case Pages => PagesActive(PagesSegment.PAGES_START)
    case Overlay => OverlayActive(OverlaySegment.Start(OverlaySegment.KindOf(option)))
    case Encrypt => EncryptActive(EncryptSegment.ENCRYPT_START)
    case _ => OtherActive
  }

  function Begin(h: HandlerState, kind: SegmentKind, option: Token): Pushed<HandlerState> {
    var g := h.Emit(BeginEvent(kind));
    if !h.active.NoActive? then Pushed(g, Some(Internal("nested qpdf named segment")))
    else if kind.Pages? && h.pagesSeen then Pushed(g, Some(Usage("--pages may only be specified one time")))
    else Pushed(g.(active := Open(kind, option), pagesSeen := h.pagesSeen || kind.Pages?), None)
  }

  function PushActive(env: Environment, active: Active, original: Token, canonical: Token): Pushed<Active> {
    match active
    case PagesActive(s) =>
      var p := PagesSegment.Push(env, s, original, canonical);
      Pushed(PagesActive(p.state), p.error)
    case OverlayActive(s) =>
      var p := OverlaySegment.Push(env, s, original, canonical);
      Pushed(OverlayActive(p.state), p.error)
    case EncryptActive(s) =>
      var p := EncryptSegment.Push(s, original, canonical);
      Pushed(EncryptActive(p.state), p.error)
    case _ => Pushed(active, None)
  }

  function Push(env: Environment, h: HandlerState, kind: SegmentKind, original: Token, canonical: Token): Pushed<HandlerState> {
    var p := PushActive(env, h.active, original, canonical);
    Pushed(h.Emit(TokenEvent(kind)).(active := p.state), p.error)
  }

  function End(h: HandlerState, kind: SegmentKind): Pushed<HandlerState> {
    var g := h.Emit(EndEvent(kind)).(active := NoActive);
    match h.active
    case NoActive => Pushed(g, Some(Internal("qpdf named segment ended without a begin")))
    case PagesActive(s) =>
      (match PagesSegment.Finish(s)
       case Err(e) => Pushed(g, Some(e))
       case Ok(specs) => Pushed(g.(pageSpecs := Some(specs)), None))
    case OverlayActive(s) =>
      (match OverlaySegment.Finish(s)
       case Err(e) => Pushed(g, Some(e))
       case Ok(spec) => Pushed(g.(overlaySpecs := h.overlaySpecs + [spec]), None))
    case EncryptActive(s) =>
      (match EncryptSegment.Finish(s)
       case Err(e) => Pushed(g, Some(e))
       case Ok(parsed) => Pushed(g.(encryptSegments := h.encryptSegments + [parsed]), None))
    case OtherActive => Pushed(g, None)
  }

  /** The option table of a segment kind. */
  function KindTable(kind: SegmentKind): string {
    match kind
    case Encrypt => "encryption"
    case Pages => "pages"
    case AddAttachment => "attachment"
    case CopyAttachments => "copy attachment"
    case Overlay => "underlay/overlay"
    case PageLabels => "set page labels"
  }

  /** The option table named when a segment is not terminated. */
  function MissingTable(h: HandlerState, kind: SegmentKind): string {
    match h.active
    case EncryptActive(s) => EncryptSegment.TableName(s.keyLen)
    case PagesActive(_) => "pages"
    case OverlayActive(_) => "underlay/overlay"
    case _ => KindTable(kind)
  }

  /** The parser an open segment owns. */
  datatype Parser =
    | NoParser
    | PagesParser(pages: PagesSegment.PagesSegmentParser)
    | OverlayParser(overlay: OverlaySegment.OverlaySegmentParser)
    | EncryptParser(encrypt: EncryptSegment.EncryptSegmentCallbackState)
    | OtherParser

  class QpdfSegmentHandler {
    var active: Parser
    var pagesSeen: bool
    var pageSpecs: Option<seq<PagesSegment.PageSpec>>
    var overlaySpecs: seq<OverlaySegment.OverlaySpec>
    var encryptSegments: seq<EncryptSegment.ParsedEncrypt>
    ghost var events: seq<Event>

    ghost function Owned(): set<object>
      reads this
    {
      match active
      case PagesParser(p) => {p}
      case OverlayParser(p) => {p}
      case EncryptParser(p) => {p}
      case _ => {}
    }

    ghost function ActiveState(): Active
      reads this, Owned()
    {
      match active
      case NoParser => NoActive
      case PagesParser(p) => PagesActive(p.State())
      case OverlayParser(p) => OverlayActive(p.State())
      case EncryptParser(p) => EncryptActive(p.State())
      case OtherParser => OtherActive
    }

    ghost function State(): HandlerState
      reads this, Owned()
    {
      HandlerState(ActiveState(), pagesSeen, pageSpecs, overlaySpecs, encryptSegments, events)
    }

    constructor ()
      ensures State() == HANDLER_START && Owned() == {}
    {
      active := NoParser;
      pagesSeen, pageSpecs := false, None;
      overlaySpecs, encryptSegments, events := [], [], [];
    }

    method BeginSegment(kind: SegmentKind, option: Token) returns (error: Option<Error>)
      modifies this
      ensures Pushed(State(), error) == Begin(old(State()), kind, option)
      ensures State().Valid() || !old(State()).Valid()
      ensures fresh(Owned() - old(Owned()))
    {
      events := events + [BeginEvent(kind)];
      if !active.NoParser? {
        return Some(Internal("nested qpdf named segment"));
      }
      match kind {
        case Pages =>
          if pagesSeen {
            return Some(Usage("--pages may only be specified one time"));
          }
          pagesSeen := true;
          var p := new PagesSegment.PagesSegmentParser();
          active := PagesParser(p);
        case Overlay =>
          var p := new OverlaySegment.OverlaySegmentParser(
            OverlaySegment.KindOf(option));
          active := OverlayParser(p);
        case Encrypt =>
          var p := new EncryptSegment.EncryptSegmentCallbackState();
          active := EncryptParser(p);
        case _ =>
          active := OtherParser;
      }
      return None;
    }

    method PushToken(env: Environment, kind: SegmentKind, original: Token, canonical: Token) returns (error: Option<Error>)
      requires State().Valid()
      modifies this, Owned()
      ensures Pushed(State(), error) == Push(env, old(State()), kind, original, canonical)
      ensures State().Valid()
      ensures Owned() == old(Owned())
    {
      events := events + [TokenEvent(kind)];
      match active {
        case PagesParser(p) => error := p.PushToken(env, original, canonical);
        case OverlayParser(p) => error := p.PushToken(env, original, canonical);
        case EncryptParser(p) => error := p.PushToken(original, canonical);
        case _ => error := None;
      }
    }

    method EndSegment(kind: SegmentKind) returns (error: Option<Error>)
      modifies this
      ensures Pushed(State(), error) == End(old(State()), kind)
      ensures State().Valid() && Owned() == {}
    {
      hide PagesSegment.Finish, OverlaySegment.Finish, EncryptSegment.Finish;
      events := events + [EndEvent(kind)];
      var taken := active;
      active := NoParser;
      match taken {
        case NoParser =>
          return Some(Internal("qpdf named segment ended without a begin"));
        case PagesParser(p) =>
          var specs := p.FinishSegment();
          if specs.Err? {
            return Some(specs.error);
          }
          pageSpecs := Some(specs.value);
        case OverlayParser(p) =>
          var spec := p.FinishSegment();
          if spec.Err? {
            return Some(spec.error);
          }
          overlaySpecs := overlaySpecs + [spec.value];
        case EncryptParser(p) =>
          var parsed := p.FinishSegment();
          if parsed.Err? {
            return Some(parsed.error);
          }
          encryptSegments := encryptSegments + [parsed.value];
        case OtherParser =>
      }
      return None;
    }

    method MissingTerminatorTable(kind: SegmentKind) returns (table: string)
      ensures table == MissingTable(State(), kind)
    {
      match active {
        case EncryptParser(p) => table := EncryptSegment.TableName(p.keyLen);
        case PagesParser(_) => table := "pages";
        case OverlayParser(_) => table := "underlay/overlay";
        case _ =>
          match kind {
            case Encrypt => table := "encryption";
            case Pages => table := "pages";
            case AddAttachment => table := "attachment";
            case CopyAttachments => table := "copy attachment";
            case Overlay => table := "underlay/overlay";
            case PageLabels => table := "set page labels";
          }
      }
    }
  }
}
