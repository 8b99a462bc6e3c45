/** The exceptions that end a conversion, one constructor per cause. */
module Errors {

  datatype Error =
    | FileNotFound        // FileNotFoundException: the input path does not exist
    | UnsupportedCharset  // UnsupportedCharsetException from Charset.forName
    | IndexOutOfBounds    // StringIndexOutOfBoundsException from substring/charAt
    | ReadOnlyFile        // IOException("Read-only file") from writeToFile
    | MalformedHar        // a HAR object or array that is missing or of the wrong JSON type
    | NullFormatter       // NullPointerException: a positive number met an unset NumberFormat
}
