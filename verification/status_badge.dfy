/** The status badge shown next to a tracker domain (components/StatusBadge.tsx):
    a colour and a label for an HTTP status code, or nothing at all when the
    code is absent. */
module StatusBadge {
  import opened Base
  import opened Strings

  datatype Colour = Gray | Yellow | Green | Red

  datatype BadgeView = BadgeView(colour: Colour, text: string)

  /** Code 0 stands for a network error; 399 is shown as a redirect. */
  const NetworkErrorCode: int := 0
  const RedirectCode: int := 399
  const ErrorLabel: string := "Error"
  const RedirectLabel: string := "Redirect"

  /** The Tailwind class each colour is rendered with. */
  function ClassName(c: Colour): string {
    match c
    case Gray => "bg-gray-500"
    case Yellow => "bg-yellow-500"
    case Green => "bg-green-500"
    case Red => "bg-red-500"
  }

  /** `getStatusColor`. Its special cases for 0 and 399 agree with the range
      rules, so the colour is simply the HTTP status class: 2xx green, 3xx
      yellow, 400 and above red, everything below 200 grey. */
  function StatusColor(code: int): (c: Colour)
    ensures c == Green <==> 200 <= code < 300
    ensures c == Yellow <==> 300 <= code < 400
    ensures c == Red <==> code >= 400
    ensures c == Gray <==> code < 200
  {
    if code == NetworkErrorCode then Gray
    else if code == RedirectCode then Yellow
    else if 200 <= code < 300 then Green
    else if 300 <= code < 400 then Yellow
    else if code >= 400 then Red
    else Gray
  }

  /** `getStatusColor` as the component sees it: the class string of the
      code's colour. Each class is returned exactly for its status range. */
  function StatusClassName(code: int): (cls: string)
    ensures cls == "bg-green-500" <==> 200 <= code < 300
    ensures cls == "bg-yellow-500" <==> 300 <= code < 400
    ensures cls == "bg-red-500" <==> code >= 400
    ensures cls == "bg-gray-500" <==> code < 200
  {
    ClassName(StatusColor(code))
  }

  /** `getStatusText`: "Error" for 0, "Redirect" for 399, otherwise the
      decimal string of the code: canonical (no leading zero, no "-0") and
      reading back as the code, which by `IntToDecimalUnique` pins it. */
  function StatusText(code: int): (t: string)
    ensures code == NetworkErrorCode ==> t == ErrorLabel
    ensures code == RedirectCode ==> t == RedirectLabel
    ensures code != NetworkErrorCode && code != RedirectCode ==>
              ParseInt(t) == Some(code) && CanonicalDecimal(t)
  {
    if code == NetworkErrorCode then ErrorLabel
    else if code == RedirectCode then RedirectLabel
    else IntToDecimal(code)
  }

  /** A numeric label is the one canonical decimal string of the code. */
  lemma StatusTextCanonical(code: int, s: string)
    requires code != NetworkErrorCode && code != RedirectCode
    requires CanonicalDecimal(s) && ParseInt(s) == Some(code)
    ensures StatusText(code) == s
  {
    IntToDecimalUnique(code, s);
  }

  /** Different codes never share a label: the two words are not numbers,
      and decimal strings identify their codes. */
  lemma LabelsIdentifyCodes(a: int, b: int)
    requires StatusText(a) == StatusText(b)
    ensures a == b
  {
    assert ParseInt(ErrorLabel) == None;
    assert ParseInt(RedirectLabel) == None;
    assert ErrorLabel != RedirectLabel;
  }

  /** The component: nothing for an absent code (`!statusCode && statusCode
      !== 0`), otherwise a badge; 0 is present and shows as a grey "Error". */
  function Render(statusCode: Option<int>): (r: Option<BadgeView>)
    ensures r.None? <==> statusCode.None?
    ensures statusCode == Some(NetworkErrorCode) ==> r == Some(BadgeView(Gray, ErrorLabel))
    ensures statusCode == Some(RedirectCode) ==> r == Some(BadgeView(Yellow, RedirectLabel))
    ensures r.Some? ==> r.value.colour == StatusColor(statusCode.value)
                        && r.value.text == StatusText(statusCode.value)
  {
    match statusCode
    case None => None
    case Some(code) => Some(BadgeView(StatusColor(code), StatusText(code)))
  }
}
