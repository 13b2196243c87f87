/** Display values shared by both contact-form scripts. */
module FormUi {
  import opened Text

  /** The colours the message character counter is painted in. */
  datatype CounterColor = Gray | Yellow | Orange | Red {

    /** The CSS colour the scripts assign to `style.color`. */
    function Hex(): string {
      match this
      case Gray => "#6c757d"
      case Yellow => "#ffc107"
      case Orange => "#fd7e14"
      case Red => "#dc3545"
    }
  }

  /** The submit button's caption: idle, in flight, or counting down a cooldown. */
  datatype Caption = Send | Sending | Wait(seconds: int) {

    /** The text the scripts assign to the button's `textContent`. */
    function Text(): string {
      match this
      case Send => "Send Message"
      case Sending => "Sending..."
      case Wait(n) => "Wait " + Numeral(n) + "s"
    }
  }

  // Feedback regions and the submit button

  /**
   * The state a page puts its feedback regions in: `setFormState`'s argument
   * in the token variant (`Idle` for any other value), and the effect of
   * `showLoading`, `showSuccess` and `showError` in the relay variant.
   */
  datatype FormState = Loading | Success | Error | Idle

  /** What the three feedback regions and the submit button show. */
  datatype Banners = Banners(loading: bool, error: bool, success: bool, disabled: bool, caption: Caption)

  predicate AtMostOneBanner(b: Banners) {
    !(b.loading && b.error) && !(b.loading && b.success) && !(b.error && b.success)
  }

  /** What entering state `s` leaves on screen, whatever was shown before. */
  function StateBanners(s: FormState): (b: Banners)
    ensures AtMostOneBanner(b)
    ensures b.loading <==> s == Loading
    ensures b.error <==> s == Error
    ensures b.success <==> s == Success
    ensures b.disabled <==> s == Loading
    ensures b.caption == (if s == Loading then Sending else Send)
  {
    match s
    case Loading => Banners(true, false, false, true, Sending)
    case Success => Banners(false, false, true, false, Send)
    case Error => Banners(false, true, false, false, Send)
    case Idle => Banners(false, false, false, false, Send)
  }

  /** JavaScript's rendering of an integer. */
  function Numeral(n: int): string {
    if n < 0 then "-" + Decimal(-n) else Decimal(n)
  }

}
