/**
 * The application shell: a three-screen state machine (the landing page and
 * one dashboard per role), an API-key flag set once on mount, the content
 * chosen from the two, and the chatbot shown beside a dashboard.
 */
module App {
  import opened Text
  import opened Types

  /** `AppState`: the landing page, or the dashboard of a role. */
  datatype Screen = Landing | Working(role: Role)

  /** What the main area shows. */
  datatype Content = ApiKeyMessage | LandingPage | JobSeekerDashboardView | RecruiterDashboardView

  /** The dashboard view of a role. */
  function DashboardOf(role: Role): Content
  {
    match role
    case JobSeeker => JobSeekerDashboardView
    case Recruiter => RecruiterDashboardView
  }

  /** `!hasApiKey ? <ApiKeyMessage /> : renderContent()`. */
  function MainContent(screen: Screen, hasApiKey: bool): (c: Content)
    ensures c == ApiKeyMessage <==> !hasApiKey
    ensures hasApiKey ==> (c == LandingPage <==> screen == Landing)
    ensures hasApiKey && screen.Working? ==> c == DashboardOf(screen.role)
  {
    if !hasApiKey then ApiKeyMessage
    else match screen
      case Landing => LandingPage
      case Working(JobSeeker) => JobSeekerDashboardView
      case Working(Recruiter) => RecruiterDashboardView
  }

  /** `appState !== 'landing' && hasApiKey && <ChatbotWidget role={appState} />`: the chatbot's role, if shown. */
  function Chatbot(screen: Screen, hasApiKey: bool): (r: Option<Role>)
    ensures r.Some? <==> screen.Working? && hasApiKey
    ensures r.Some? ==> r.value == screen.role
  {
    if screen.Working? && hasApiKey then Some(screen.role) else None
  }

  /**
   * The chatbot never shows beside the API-key warning or the landing page:
   * when it is there, the main area is the dashboard of the chatbot's role,
   * and a dashboard in the main area always has the chatbot beside it.
   */
  lemma ChatbotBesideItsDashboard(screen: Screen, hasApiKey: bool)
    ensures Chatbot(screen, hasApiKey).Some? ==> MainContent(screen, hasApiKey) == DashboardOf(Chatbot(screen, hasApiKey).value)
    ensures MainContent(screen, hasApiKey) !in {ApiKeyMessage, LandingPage} ==> Chatbot(screen, hasApiKey).Some?
  {
  }

  class Shell {
    var screen: Screen
    var hasApiKey: bool

    /** The first render: the landing page, with the key assumed present. */
    constructor ()
      ensures screen == Landing && hasApiKey
    {
      screen := Landing;
      hasApiKey := true;
    }

    /** The mount effect: a missing `API_KEY` clears the flag, and nothing sets it again. */
    method Mount(apiKeyPresent: bool)
      modifies this
      ensures hasApiKey == (old(hasApiKey) && apiKeyPresent)
      ensures screen == old(screen)
    {
      if !apiKeyPresent {
        hasApiKey := false;
      }
    }

    /** `handleSelectRole`: open that role's dashboard. */
    method SelectRole(role: Role)
      modifies this
      ensures screen == Working(role) && hasApiKey == old(hasApiKey)
    {
      screen := Working(role);
    }

    /** `handleBackToHome`, from a dashboard's back button or a click on the header title. */
    method BackToHome()
      modifies this
      ensures screen == Landing && hasApiKey == old(hasApiKey)
    {
      screen := Landing;
    }
  }
}
