/** The carousel's translation of the portable snap-point settings into the
    Windows scroll viewer's own enumerations. */
module CarouselSnap {

  /** The portable `SnapPointsType`; `UndefinedType` stands for any other value
      cast into the enumeration. */
  datatype SnapPointsType = None | Mandatory | MandatorySingle | UndefinedType(code: int)

  /** The portable `SnapPointsAlignment`; `UndefinedAlignment` likewise. */
  datatype SnapPointsAlignment = Start | Center | End | UndefinedAlignment(code: int)

  /** The Windows `SnapPointsType`. */
  datatype WindowsSnapPointsType = WNone | WOptional | WMandatory | WOptionalSingle | WMandatorySingle

  /** The Windows `SnapPointsAlignment`. */
  datatype WindowsSnapPointsAlignment = Near | WCenter | Far

  function GetWindowsSnapPointsType(t: SnapPointsType): (w: WindowsSnapPointsType)
    ensures w != WOptional && w != WOptionalSingle
    ensures w == WMandatory <==> t.Mandatory?
    ensures w == WMandatorySingle <==> t.MandatorySingle?
  {
    match t
    case Mandatory => WMandatory
    case MandatorySingle => WMandatorySingle
    case None => WNone
    case UndefinedType(_) => WNone
  }

  function GetWindowsSnapPointsAlignment(a: SnapPointsAlignment): (w: WindowsSnapPointsAlignment)
    ensures w == Near <==> a.Start?
    ensures w == Far <==> a.End?
  {
    match a
    case Center => WCenter
    case End => Far
    case Start => Near
    case UndefinedAlignment(_) => WCenter
  }

  /** The portable type a Windows type stands for, where there is one. */
  function PortableSnapPointsType(w: WindowsSnapPointsType): SnapPointsType
    requires w != WOptional && w != WOptionalSingle
  {
    match w
    case WNone => None
    case WMandatory => Mandatory
    case WMandatorySingle => MandatorySingle
  }

  /** The portable alignment a Windows alignment stands for. */
  function PortableSnapPointsAlignment(w: WindowsSnapPointsAlignment): SnapPointsAlignment {
    match w
    case Near => Start
    case WCenter => Center
    case Far => End
  }

  /** Every named snap-point type maps to the Windows type of the same
      meaning, and an undefined value falls back to no snapping. */
  lemma SnapPointsTypeRoundTrip(t: SnapPointsType)
    ensures !t.UndefinedType? ==> PortableSnapPointsType(GetWindowsSnapPointsType(t)) == t
    ensures t.UndefinedType? ==> GetWindowsSnapPointsType(t) == WNone
  {
  }

  /** Every named alignment maps to the Windows alignment of the same
      meaning (start is near, end is far), and an undefined value falls back
      to centre. */
  lemma SnapPointsAlignmentRoundTrip(a: SnapPointsAlignment)
    ensures !a.UndefinedAlignment? ==> PortableSnapPointsAlignment(GetWindowsSnapPointsAlignment(a)) == a
    ensures a.UndefinedAlignment? ==> GetWindowsSnapPointsAlignment(a) == WCenter
  {
  }
}
