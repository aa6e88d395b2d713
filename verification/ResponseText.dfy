/** The text of a reply, as `process_write` prints it. */
module ResponseText {
  import opened Wrappers
  import opened CStrings
  import opened Decimal

  const OK_200_TITLE := "OK"
  const ERROR_400_TITLE := "Bad Request"
  const ERROR_400_FORM := "Your request has bad syntax or is inherently impossible to satisfy.\n"
  const ERROR_403_TITLE := "Forbidden"
  const ERROR_403_FORM := "You do not have permission to get file from this server.\n"
  const ERROR_404_TITLE := "Not Found"
  const ERROR_404_FORM := "The requested file was not found on this server.\n"
  const ERROR_500_TITLE := "Internal Error"
  const ERROR_500_FORM := "There was an unusual problem serving the requested file.\n"

  /** `%d` */
  function PrintInt(n: int): string {
    if n < 0 then "-" + Print(-n) else Print(n)
  }

  function StatusLine(status: nat, title: string): string {
    "HTTP/1.1 " + Print(status) + " " + title + CRLF
  }

  function LengthLine(n: int): string {
    "Content-Length:" + " " + PrintInt(n)
  }

  function LingerLine(linger: bool): string {
    "Connection:" + " " + (if linger then "keep-alive" else "close")
  }

  /** What add_headers prints. */
  function Headers(n: int, linger: bool): string {
    LengthLine(n) + CRLF + LingerLine(linger) + CRLF + CRLF
  }

  /** A reply without a file behind it. */
  datatype Page = Page(status: nat, title: string, form: string)

  /** The error pages of process_write. */
  function ErrorPage(code: HttpCode): (p: Page)
    requires code in {BadRequest, NoResource, ForbiddenRequest, InternalError}
  {
    match code
    case BadRequest => Page(400, ERROR_400_TITLE, ERROR_400_FORM)
    case NoResource => Page(404, ERROR_404_TITLE, ERROR_404_FORM)
    case ForbiddenRequest => Page(403, ERROR_403_TITLE, ERROR_403_FORM)
    case _ => Page(500, ERROR_500_TITLE, ERROR_500_FORM)
  }

  function PageText(p: Page, linger: bool): string {
    StatusLine(p.status, p.title) + Headers(|p.form|, linger) + p.form
  }

  /** The header in front of a file; add_headers takes an `int`. */
  function FileHead(size: nat, linger: bool): string {
    StatusLine(200, OK_200_TITLE) + Headers(ToInt32(size), linger)
  }

  // ---- lengths ----

  lemma {:induction false} PrintIntLength(n: int)
    requires -INT32_MAX - 1 <= n <= INT32_MAX
    ensures |PrintInt(n)| <= 11
  {
    if n < 0 {
      PrintBound(-n, 10, 10_000_000_000);
    } else {
      PrintLength(n);
    }
  }

  lemma {:induction false} HeadersLength(n: int, linger: bool)
    requires -INT32_MAX - 1 <= n <= INT32_MAX
    ensures |LengthLine(n)| <= 27 && |LingerLine(linger)| <= 22
    ensures 0 < |Headers(n, linger)| <= 55
  {
    PrintIntLength(n);
  }

  lemma {:induction false} StatusLineLength(status: nat, title: string)
    requires 200 <= status <= 500 && |title| <= 20
    ensures |StatusLine(status, title)| <= 35
  {
    PrintBound(status, 3, 1000);
  }

  lemma {:induction false} PageLengths(code: HttpCode)
    requires code in {BadRequest, NoResource, ForbiddenRequest, InternalError}
    ensures var p := ErrorPage(code);
      200 <= p.status <= 500 && 0 < |p.title| <= 20 && 0 < |p.form| <= 80
  {
  }

  // ---- the replies, letter by letter ----

  /** The lines of add_headers in words. */
  lemma {:induction false} HeadersAre(n: int, linger: bool)
    ensures Headers(n, linger) ==
            "Content-Length: " + PrintInt(n)
            + "\r\nConnection: " + (if linger then "keep-alive" else "close") + "\r\n\r\n"
  {
    hide PrintInt;
    var connection := if linger then "keep-alive" else "close";
    assert "Content-Length:" + " " == "Content-Length: ";
    assert "\r\n" + "Connection:" + " " == "\r\nConnection: ";
    assert "\r\n" + "\r\n" == "\r\n\r\n";
    assert Headers(n, linger) ==
           "Content-Length: " + PrintInt(n) + ("\r\n" + "Connection:" + " ") + connection + ("\r\n" + "\r\n");
  }

  lemma {:induction false} ThreeDigits(n: nat)
    requires 100 <= n < 1000
    ensures Print(n) == [Digit(n / 100), Digit(n / 10 % 10), Digit(n % 10)]
  {
    assert n / 10 / 10 == n / 100;
    assert Print(n / 10) == Print(n / 100) + [Digit(n / 10 % 10)];
  }

  /** The digits of the status codes. */
  lemma {:induction false} CodeDigits()
    ensures Print(200) == "200" && Print(400) == "400" && Print(403) == "403" && Print(404) == "404"
    ensures Print(500) == "500"
  {
    ThreeDigits(200);
    ThreeDigits(400);
    ThreeDigits(403);
    ThreeDigits(404);
    ThreeDigits(500);
  }

  /** Status line, headers and text of a page. */
  predicate Says(page: string, code: string, title: string, form: string, linger: bool) {
    page == "HTTP/1.1 " + code + " " + title + "\r\n" + Headers(|form|, linger) + form
  }

  /** Each error code gets its own page. */
  lemma {:induction false} PagesAre(linger: bool)
    ensures Says(PageText(ErrorPage(BadRequest), linger), "400", "Bad Request",
                 "Your request has bad syntax or is inherently impossible to satisfy.\n", linger)
    ensures Says(PageText(ErrorPage(ForbiddenRequest), linger), "403", "Forbidden",
                 "You do not have permission to get file from this server.\n", linger)
    ensures Says(PageText(ErrorPage(NoResource), linger), "404", "Not Found",
                 "The requested file was not found on this server.\n", linger)
    ensures Says(PageText(ErrorPage(InternalError), linger), "500", "Internal Error",
                 "There was an unusual problem serving the requested file.\n", linger)
  {
    hide Headers, Print;
    CodeDigits();
  }

  /** A file is announced with 200 and its size. */
  lemma {:induction false} FileHeadIs(size: nat, linger: bool)
    ensures FileHead(size, linger) == "HTTP/1.1 " + "200" + " " + "OK" + "\r\n" + Headers(ToInt32(size), linger)
  {
    hide Headers, ToInt32, Print;
    CodeDigits();
  }
}
