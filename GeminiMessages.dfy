/**
 * The messages the service layer shows or throws, written out as the source
 * has them.
 */
module GeminiMessages {
  const GenericMessage := "An unexpected error occurred during analysis. Please check the console for details."
  const OverloadedMessage := "The AI model is currently overloaded. Please try again in a moment."
  const InvalidKeyMessage := "Your API key is invalid or missing required permissions. Please check your configuration and ensure it's enabled for the Gemini API."
  const QuotaMessage := "You have exceeded your API quota or there is a billing issue with your account. Please check your Google Cloud project settings."
  const FormatMessage := "The AI model returned an unexpected response format. This can happen during high load. Please try again."
  /** The phrase the fourth test of `parseGeminiError` looks for. */
  const FormatPhrase := "invalid response format"
  /** "The AI model returned an invalid response format.", split at the phrase. */
  const NoJsonFront := "The AI model returned an "
  const NoJsonMessage := NoJsonFront + FormatPhrase + "."
  const MissingKeyMessage := "API key is not configured. Please set the API_KEY environment variable."
}
