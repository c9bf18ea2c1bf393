/**
 * Mode selection of barcode.py (lines 77-88): the first command-line
 * argument, if any, picks camera mode with the official camera module
 * ("rpi", also the default), camera mode with a USB UVC camera ("uvc"), or
 * direct mode, where the argument itself is the ISBN.
 */
module Modes {
  import opened Wrappers

  datatype Submode = Rpi | Uvc

  datatype Mode = Camera(submode: Submode) | Isbn(isbn: string)

  /** The two arguments that name a camera profile rather than an ISBN. */
  predicate IsKeyword(arg: string) {
    arg == "uvc" || arg == "rpi"
  }

  /** `sys.argv[1]` when `len(sys.argv) >= 2`; argv[0] is the program name. */
  function FirstArgument(argv: seq<string>): (arg: Option<string>)
    ensures arg.Some? <==> |argv| >= 2
    ensures arg.Some? ==> arg.value == argv[1]
  {
    if |argv| < 2 then None else Some(argv[1])
  }

  /** The if/elif chain of lines 77-88, with the ISBN of line 127 kept in direct mode. */
  function SelectMode(arg: Option<string>): (m: Mode)
    ensures m.Isbn? <==> arg.Some? && !IsKeyword(arg.value)
    ensures m.Isbn? ==> m.isbn == arg.value
    ensures m == Camera(Uvc) <==> arg == Some("uvc")
  {
    match arg
    case None => Camera(Rpi)
    case Some(a) =>
      if a == "uvc" then Camera(Uvc)
      else if a == "rpi" then Camera(Rpi)
      else Isbn(a)
  }

  /** The camera rows of the mode table: none and "rpi" pick rpi, "uvc" picks uvc. */
  lemma CameraModeTable()
    ensures SelectMode(None) == Camera(Rpi)
    ensures SelectMode(Some("rpi")) == Camera(Rpi)
    ensures SelectMode(Some("uvc")) == Camera(Uvc)
  {
  }

  /**
   * The usage table at the head of the script, stated on `sys.argv`: no
   * argument or `rpi` picks the official camera module, `uvc` the USB
   * camera, and any other argument is an ISBN used as given.
   */
  lemma ArgvModeTable(argv: seq<string>)
    ensures |argv| < 2 ==> SelectMode(FirstArgument(argv)) == Camera(Rpi)
    ensures |argv| >= 2 && argv[1] == "rpi" ==> SelectMode(FirstArgument(argv)) == Camera(Rpi)
    ensures |argv| >= 2 && argv[1] == "uvc" ==> SelectMode(FirstArgument(argv)) == Camera(Uvc)
    ensures SelectMode(FirstArgument(argv)).Isbn? <==> |argv| >= 2 && !IsKeyword(argv[1])
    ensures SelectMode(FirstArgument(argv)).Isbn? ==> SelectMode(FirstArgument(argv)).isbn == argv[1]
  {
  }
}
