/** Whether the remote document store and the remote image host count as
    configured: their settings must be non-empty and differ from the
    placeholder values the repository ships with. */
module Config {

  datatype FirebaseConfig = FirebaseConfig(
    apiKey: string,
    authDomain: string,
    projectId: string,
    storageBucket: string,
    messagingSenderId: string,
    appId: string)

  /** The settings as shipped: every field is still a placeholder. */
  const ShippedFirebaseConfig := FirebaseConfig(
    "TU_API_KEY",
    "TU_PROYECTO.firebaseapp.com",
    "TU_PROYECTO_ID",
    "TU_PROYECTO.appspot.com",
    "TU_SENDER_ID",
    "TU_APP_ID")

  const PlaceholderApiKey := "TU_API_KEY"
  const PlaceholderProjectId := "TU_PROYECTO_ID"

  const ShippedCloudName := "TU_CLOUD_NAME"
  const PlaceholderCloudName := "TU_CLOUD_NAME"

  /** `isFirebaseConfigured`: only the API key and the project id are looked at. */
  predicate IsFirebaseConfigured(c: FirebaseConfig) {
    && c.apiKey != "" && c.apiKey != PlaceholderApiKey
    && c.projectId != "" && c.projectId != PlaceholderProjectId
  }

  /** `isCloudinaryConfigured`. */
  predicate IsCloudinaryConfigured(cloudName: string) {
    cloudName != "" && cloudName != PlaceholderCloudName
  }

  /** As shipped, neither remote service is configured, so every store
      operation takes the local path and images are stored inline. */
  lemma ShippedIsLocalOnly()
    ensures !IsFirebaseConfigured(ShippedFirebaseConfig)
    ensures !IsCloudinaryConfigured(ShippedCloudName)
  {
  }
}
