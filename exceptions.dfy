/** The exceptions the link core throws, with the messages their constructors build. */
module Exceptions {

  datatype LinkError =
    | ReservedShortUrl(message: string)          // ReservedShortUrlException
    | ShortCodeAlreadyExists(message: string)    // ShortCodeAlreadyExistsException
    | UnableToGenerateUniqueShortUrl(message: string)
    | LinkNotFound(message: string)              // LinkNotFoundException
    | IllegalState(message: string)              // IllegalStateException
    | KafkaEventSending(message: string)         // KafkaEventSendingException
    | Interrupted(message: string)               // RuntimeException around an InterruptedException
    | NullPointer                                // dereferencing or unboxing a null
    | NegativeArraySize                          // StringBuilder with a negative capacity
    | DataAccessFailure                          // any other storage failure, propagated unchanged

  function ReservedShortUrlMessage(shortUrl: string): string
  {
    "Short URL '" + shortUrl + "' is reserved and cannot be used."
  }

  function ShortCodeAlreadyExistsMessage(shortUrl: string): string
  {
    "Short ink with provided shortUrl '" + shortUrl + "' already exists."
  }

  /** The message of UnableToGenerateUniqueShortUrlException; maxAttemptsText
      is the attempt count as Java prints it. */
  function UnableToGenerateMessage(maxAttemptsText: string): string
  {
    "Failed to generate a unique short code after " + maxAttemptsText + " attempts."
  }

  const NOT_FOUND_MESSAGE: string := "Link not found or access denied"

  const KAFKA_SEND_FAILED_MESSAGE: string := "Failed to send PasswordReset event."
  const KAFKA_SEND_INTERRUPTED_MESSAGE: string := "Interrupted while sending PasswordReset event."
}
